/** The query side of variable encoding (EncodedVariableInterpreter.hpp, DictionaryReader.hpp). */
module Search {
  import opened AsciiCase
  import opened Sequences
  import opened Wrappers
  import opened Words
  import opened Logtype
  import opened Message
  import opened Interpreter
  import opened VariableEntries
  import IntegerVar
  import FloatVar
  import Decimal

  /** What a query variable becomes: a placeholder for the logtype and the encoded values to look for. */
  datatype SearchResult =
    | BadParam
    | NotFound
    | NonDictVar(placeholder: char, value: int)
    | DictVar(value: int, id: nat)
    | ImpreciseDictVar(values: set<int>, ids: set<nat>)

  predicate EscapeFree(s: string) {
    ESCAPE !in s
  }

  /** The string with each escape sequence replaced by the character escaped, and whether an escape
      is left dangling. */
  function UnescapeState(s: string): (string, bool)
    decreases |s|
  {
    if s == "" then ("", false)
    else
      var (t, escaped) := UnescapeState(s[..|s| - 1]);
      var c := s[|s| - 1];
      if escaped then (t + [c], false) else if c == ESCAPE then (t, true) else (t + [c], false)
  }

  function Unescape(s: string): string {
    UnescapeState(s).0
  }

  method UnescapeString(s: string) returns (t: string)
    ensures t == Unescape(s)
  {
    t := "";
    var escaped := false;
    for i := 0 to |s|
      invariant (t, escaped) == UnescapeState(s[..i])
    {
      assert s[..i + 1][..i] == s[..i];
      if escaped {
        t := t + [s[i]];
        escaped := false;
      } else if s[i] == ESCAPE {
        escaped := true;
      } else {
        t := t + [s[i]];
      }
    }
    assert s[..|s|] == s;
  }

  /** Unescaping leaves a string alone exactly when it holds no escape character. */
  lemma {:induction false} UnescapeFixpoint(s: string)
    ensures |Unescape(s)| + (if UnescapeState(s).1 then 1 else 0) <= |s|
    ensures EscapeFree(s) ==> UnescapeState(s) == (s, false)
    ensures !EscapeFree(s) ==> |Unescape(s)| < |s|
    decreases |s|
  {
    if s != "" {
      var front := s[..|s| - 1];
      UnescapeFixpoint(front);
      assert s == front + [s[|s| - 1]];
    }
  }

  /** Escaping every escape character of s. */
  function EscapeAll(s: string): string {
    if s == "" then ""
    else
      EscapeAll(s[..|s| - 1]) + EscapeChar(s[|s| - 1])
  }

  lemma UnescapeSnoc(s: string, c: char)
    ensures var (t, escaped) := UnescapeState(s);
            UnescapeState(s + [c]) ==
              if escaped then (t + [c], false) else if c == ESCAPE then (t, true) else (t + [c], false)
  {
    assert (s + [c])[..|s|] == s;
  }

  function EscapeChar(c: char): string {
    if c == ESCAPE then [ESCAPE, ESCAPE] else [c]
  }

  lemma UnescapeEscaped(e: string, c: char)
    requires !UnescapeState(e).1
    ensures UnescapeState(e + EscapeChar(c)) == (UnescapeState(e).0 + [c], false)
  {
    UnescapeSnoc(e, c);
    if c == ESCAPE {
      UnescapeSnoc(e + [ESCAPE], ESCAPE);
      assert e + EscapeChar(c) == e + [ESCAPE] + [ESCAPE];
    }
  }

  /** Every string has a query form that unescapes to it. */
  lemma {:induction false} UnescapeOfEscapeAll(s: string)
    ensures UnescapeState(EscapeAll(s)) == (s, false)
    decreases |s|
  {
    if s != "" {
      var front, c := s[..|s| - 1], s[|s| - 1];
      UnescapeOfEscapeAll(front);
      UnescapeEscaped(EscapeAll(front), c);
      assert s == front + [c];
    }
  }

  function UpperChar(c: char): char {
    if 'a' <= c <= 'z' then (c as int - 'a' as int + 'A' as int) as char else c
  }

  function Upper(s: string): (u: string)
    ensures |u| == |s|
  {
    seq(|s|, i requires 0 <= i < |s| => UpperChar(s[i]))
  }

  /** Comparing uppercase copies compares strings up to ASCII case. */
  lemma UpperComparesButForCase(s: string, t: string)
    ensures Upper(s) == Upper(t) <==> AgreeButForCase(s, t)
  {
    if Upper(s) == Upper(t) {
      forall i | 0 <= i < |s| ensures SameButForCase(s[i], t[i]) {
        assert Upper(s)[i] == UpperChar(s[i]) && Upper(t)[i] == UpperChar(t[i]);
      }
    }
  }

  predicate EntryMatches(entry: string, target: string, ignoreCase: bool) {
    if ignoreCase then AgreeButForCase(entry, target) else entry == target
  }

  /** The IDs of the matching entries: the first one if case matters, otherwise all of them. */
  method GetEntryMatchingValue(entries: seq<string>, target: string, ignoreCase: bool) returns (ids: seq<nat>)
    ensures forall k :: 0 <= k < |ids| ==> ids[k] < |entries| && EntryMatches(entries[ids[k]], target, ignoreCase)
    ensures forall j, k :: 0 <= j < k < |ids| ==> ids[j] < ids[k]
    ensures ignoreCase ==> forall i :: 0 <= i < |entries| && EntryMatches(entries[i], target, true) ==> i in ids
    ensures !ignoreCase ==> |ids| <= 1
    ensures !ignoreCase ==> (ids == [] <==> target !in entries)
    ensures !ignoreCase && ids != [] ==> target !in entries[..ids[0]]
  {
    ids := [];
    for i := 0 to |entries|
      invariant forall k :: 0 <= k < |ids| ==> ids[k] < i && EntryMatches(entries[ids[k]], target, ignoreCase)
      invariant forall j, k :: 0 <= j < k < |ids| ==> ids[j] < ids[k]
      invariant ignoreCase ==> forall j :: 0 <= j < i && EntryMatches(entries[j], target, true) ==> j in ids
      invariant !ignoreCase ==> ids == [] && target !in entries[..i]
    {
      UpperComparesButForCase(entries[i], target);
      if !ignoreCase {
        if entries[i] == target { return [i]; }
      } else if Upper(entries[i]) == Upper(target) {
        ids := ids + [i];
      }
    }
  }

  /** The IDs of the entries equal to the target up to ASCII case. */
  ghost function IdsIgnoringCase(entries: seq<string>, target: string): set<nat> {
    set i: nat | i < |entries| && EntryMatches(entries[i], target, true)
  }

  /** What a query for a variable string has to produce against a dictionary. */
  ghost predicate SearchFinds(q: string, entries: seq<string>, ignoreCase: bool, r: SearchResult)
    requires |entries| <= TWO_64
  {
    if q == "" then r == BadParam
    else match Classify(q)
      case IntegerKind(n) => r == NonDictVar(INTEGER_PLACEHOLDER, n)
      case FloatKind(n) => r == NonDictVar(FLOAT_PLACEHOLDER, n)
      case DictionaryKind =>
        var target := Unescape(q);
        if ignoreCase then
          var ids := IdsIgnoringCase(entries, target);
          match |ids|
          case 0 => r == NotFound
          case 1 => r.DictVar? && ids == {r.id} && r.id < TWO_64 && r.value == WordToInt64(r.id)
          case _ => r.ImpreciseDictVar? && r.ids == ids && r.values == EncodedIds(ids)
        else if target !in entries then r == NotFound
        else r.DictVar? && r.id < |entries| && entries[r.id] == target && r.value == WordToInt64(r.id)
  }

  /** The encoded variables of a set of dictionary IDs. */
  ghost function EncodedIds(ids: set<nat>): set<int> {
    set id | id in ids && id < TWO_64 :: WordToInt64(id)
  }

  method EncodeAndSearchDictionary(q: string, entries: seq<string>, ignoreCase: bool) returns (r: SearchResult)
    requires |entries| <= TWO_64
    ensures SearchFinds(q, entries, ignoreCase, r)
  {
    if q == "" { return BadParam; }
    var n := IntegerVar.ConvertStringToIntegerVar(q);
    if n.Some? { return NonDictVar(INTEGER_PLACEHOLDER, n.value); }
    var f := FloatVar.ConvertStringToFloatVar(q);
    if f.Some? { return NonDictVar(FLOAT_PLACEHOLDER, f.value); }
    var target := UnescapeString(q);
    var matches := GetEntryMatchingValue(entries, target, ignoreCase);
    ghost var wanted := IdsIgnoringCase(entries, target);
    assert ignoreCase ==> wanted == set i | i in matches;
    if matches == [] {
      assert ignoreCase ==> wanted == {};
      return NotFound;
    }
    if |matches| == 1 {
      assert ignoreCase ==> wanted == {matches[0]};
      return DictVar(WordToInt64(matches[0]), matches[0]);
    }
    assert matches[0] in wanted && matches[1] in wanted && {matches[0], matches[1]} <= wanted;
    TwoMembers(wanted, matches[0], matches[1]);
    var values: set<int>, ids: set<nat> := {}, {};
    for i := 0 to |matches|
      invariant ids == set k | 0 <= k < i :: matches[k]
      invariant values == EncodedIds(ids)
    {
      values := values + {WordToInt64(matches[i])};
      ids := ids + {matches[i]};
    }
    assert ids == wanted;
    return ImpreciseDictVar(values, ids);
  }

  lemma TwoMembers(s: set<nat>, a: nat, b: nat)
    requires a in s && b in s && a != b
    ensures |s| >= 2
  {
    assert |s - {a}| >= 1 by { assert b in s - {a}; }
  }

  /** The result names the placeholder and encoded value that compression stored for v. */
  ghost predicate FindsStored(r: SearchResult, v: string, id: nat)
    requires id < TWO_64
  {
    match r
    case NonDictVar(placeholder, value) =>
      !Classify(v).DictionaryKind? && placeholder == PlaceholderOf(Classify(v)) && value == EncodedValue(v, id)
    case DictVar(value, id') => Classify(v).DictionaryKind? && id' == id && value == EncodedValue(v, id)
    case _ => false
  }

  /** A string with an escape character is neither an integer nor a float. */
  lemma EscapedIsDictionaryKind(q: string)
    requires !EscapeFree(q)
    ensures Classify(q).DictionaryKind?
  {
    if IntegerVar.ConvertStringToIntegerVar(q).Some? {
      IntegerHasNoEscape(q);
    }
    if FloatVar.IsFloatText(q) {
      FloatHasNoEscape(q);
    }
  }

  lemma IntegerHasNoEscape(q: string)
    ensures IntegerVar.ConvertStringToIntegerVar(q).Some? ==> EscapeFree(q)
  {
    if IntegerVar.ConvertStringToIntegerVar(q).Some? {
      forall i | 0 <= i < |q| ensures q[i] != ESCAPE {
        if q[0] == '-' && i > 0 { assert Decimal.IsDigit(q[1..][i - 1]); }
      }
    }
  }

  lemma FloatHasNoEscape(q: string)
    ensures FloatVar.IsFloatText(q) ==> EscapeFree(q)
  {
    if FloatVar.IsFloatText(q) {
      var p := FloatVar.PointOf(q);
      forall i | 0 <= i < |q| ensures q[i] != ESCAPE {
        assert i == p || i < FloatVar.SignLength(q) || Decimal.IsDigit(q[i]);
      }
    }
  }

  /** A case-sensitive query q for the variable v == Unescape(q), against a dictionary that holds v if v
      needed an entry, finds what compression stored exactly when q is written without escapes or v is a
      dictionary variable. */
  lemma SearchAgreesWithCompression(q: string, entries: seq<string>, id: nat, r: SearchResult)
    requires q != "" && |entries| <= TWO_64 && id < TWO_64
    requires Distinct(entries)
    requires Classify(Unescape(q)).DictionaryKind? ==> id < |entries| && entries[id] == Unescape(q)
    requires SearchFinds(q, entries, false, r)
    ensures FindsStored(r, Unescape(q), id) <==> EscapeFree(q) || Classify(Unescape(q)).DictionaryKind?
  {
    UnescapeFixpoint(q);
    if !EscapeFree(q) { EscapedIsDictionaryKind(q); }
  }

  /** A number written with an escape is never found: compression stored it as a number, and the query side
      looks for an entry. */
  lemma EscapedNumberIsMissed(q: string, entries: seq<string>, r: SearchResult)
    requires !EscapeFree(q) && !Classify(Unescape(q)).DictionaryKind?
    requires |entries| <= TWO_64 && AllDictionaryKind(entries) && SearchFinds(q, entries, false, r)
    ensures r == NotFound && forall id: nat :: id < TWO_64 ==> !FindsStored(r, Unescape(q), id)
  {
    EscapedIsDictionaryKind(q);
  }

  /** One such query: an escape and the digit 1, after compressing the text "1". */
  lemma EscapedOneIsMissed(r: SearchResult)
    requires SearchFinds("\\1", [], false, r)
    ensures Unescape("\\1") == "1" && Classify("1") == IntegerKind(1)
    ensures r == NotFound && !FindsStored(r, "1", 0)
  {
    UnescapeSnoc("", ESCAPE);
    UnescapeSnoc([ESCAPE], '1');
    assert "\\1" == [ESCAPE] + ['1'] && [ESCAPE] == "" + [ESCAPE];
    IntegerVar.ConvertOfIntText(1);
    assert IntegerVar.IntText(1) == "1";
    EscapedNumberIsMissed("\\1", [], r);
  }

  /** Every stored variable can be searched for: escaping its escape characters finds it. */
  lemma EveryVariableIsSearchable(v: string, entries: seq<string>, id: nat, r: SearchResult)
    requires v != "" && |entries| <= TWO_64 && id < TWO_64
    requires Distinct(entries)
    requires Classify(v).DictionaryKind? ==> id < |entries| && entries[id] == v
    requires SearchFinds(EscapeAll(v), entries, false, r)
    ensures FindsStored(r, v, id)
  {
    UnescapeOfEscapeAll(v);
    EscapeAllOfEscapeFree(v);
    if !EscapeFree(v) { EscapedIsDictionaryKind(v); }
    SearchAgreesWithCompression(EscapeAll(v), entries, id, r);
  }

  lemma {:induction false} EscapeAllOfEscapeFree(v: string)
    ensures EscapeFree(v) ==> EscapeAll(v) == v
    ensures v != "" ==> EscapeAll(v) != ""
    decreases |v|
  {
    if v != "" {
      var front, c := v[..|v| - 1], v[|v| - 1];
      EscapeAllOfEscapeFree(front);
      TakeNext(v, |front|);
      TakeAll(v);
      if EscapeFree(v) { assert c != ESCAPE && EscapeFree(front); }
    }
  }

  // ---- Searching what was compressed ----------------------------------------------------------

  lemma ValidMeansDistinct(w: VariableDictionaryWriter)
    requires w.Valid()
    ensures Distinct(w.written)
  {
  }

  /** A variable, once encoded, is found under the placeholder and the value stored for it. */
  method EncodeThenSearch(v: string, entry: LogTypeDictionaryEntry, dict: VariableDictionaryWriter)
    returns (stored: Result<(int, seq<nat>), Error>, found: SearchResult)
    requires dict.Valid() && v != ""
    modifies entry, dict
    ensures dict.Valid()
    ensures stored.Err? <==> Classify(v).DictionaryKind? && v !in old(dict.written) && |old(dict.written)| > dict.maxId
    ensures stored.Ok? ==>
              || (found.NonDictVar? && found.value == stored.value.0 && stored.value.1 == []
                  && entry.View() == old(entry.View()).AddPlaceholder(found.placeholder))
              || (found.DictVar? && found.value == stored.value.0 && stored.value.1 == [found.id]
                  && entry.View() == old(entry.View()).AddPlaceholder(DICTIONARY_PLACEHOLDER))
  {
    stored := EncodeVar(v, entry, dict);
    found := EncodeAndSearchDictionary(EscapeAll(v), dict.written, false);
    if stored.Ok? {
      ghost var id := if stored.value.1 == [] then 0 else stored.value.1[0];
      ValidMeansDistinct(dict);
      EveryVariableIsSearchable(v, dict.written, id, found);
    }
  }

  /** Compresses messages into a new dictionary. */
  method CompressAll(messages: seq<string>, dict: VariableDictionaryWriter) returns (ok: bool)
    requires dict.Valid() && dict.written == []
    modifies dict
    ensures dict.Valid()
    ensures ok <==> |Entries([], AllVariables(messages))| <= dict.maxId + 1
    ensures ok ==> dict.written == Entries([], AllVariables(messages))
  {
    for i := 0 to |messages|
      invariant dict.Valid() && dict.written == Entries([], AllVariables(messages[..i]))
    {
      MoreMessages(messages, i);
      var r := CompressThenDecompress(messages[i], dict);
      if r.Err? {
        LaterEntries(messages, i + 1);
        return false;
      }
    }
    assert messages[..|messages|] == messages;
    return true;
  }

  lemma MoreMessages(messages: seq<string>, i: nat)
    requires i < |messages|
    ensures Entries([], AllVariables(messages[..i + 1]))
            == Entries(Entries([], AllVariables(messages[..i])), VariablesOf(messages[i]))
  {
    assert messages[..i + 1][..i] == messages[..i];
    EntriesTogether([], AllVariables(messages[..i]), VariablesOf(messages[i]));
  }

  lemma {:induction false} LaterEntries(messages: seq<string>, i: nat)
    requires i <= |messages|
    ensures Entries([], AllVariables(messages[..i])) <= Entries([], AllVariables(messages))
    decreases |messages| - i
  {
    if i == |messages| {
      assert messages[..i] == messages;
    } else {
      MoreMessages(messages, i);
      EntriesGrow(Entries([], AllVariables(messages[..i])), VariablesOf(messages[i]));
      LaterEntries(messages, i + 1);
    }
  }

  /** A query after compression: a string is not found exactly if it does not read as a number and does not
      stand for a dictionary variable of some message; an entry found is that very variable. */
  method CompressThenSearch(messages: seq<string>, q: string, maxId: nat) returns (r: Result<SearchResult, Error>)
    requires maxId < TWO_64
    ensures r.Ok? <==> |Entries([], AllVariables(messages))| <= maxId + 1
    ensures r.Ok? && q != "" ==>
              (r.value == NotFound <==>
                 && Classify(q).DictionaryKind?
                 && !(Unescape(q) in AllVariables(messages) && Classify(Unescape(q)).DictionaryKind?))
    ensures r.Ok? && r.value.DictVar? ==> Unescape(q) in AllVariables(messages)
  {
    var dict := new VariableDictionaryWriter(maxId);
    var ok := CompressAll(messages, dict);
    if !ok { return Err(OutOfIds); }
    var found := EncodeAndSearchDictionary(q, dict.written, false);
    EntriesAre([], AllVariables(messages), Unescape(q));
    return Ok(found);
  }
}
