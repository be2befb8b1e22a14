/** Searching without regard to case what was compressed (EncodedVariableInterpreter.hpp,
    DictionaryReader.hpp). */
module SearchIgnoringCase {
  import opened AsciiCase
  import opened Wrappers
  import opened Words
  import opened Logtype
  import opened Message
  import opened Interpreter
  import opened Search
  import opened VariableEntries
  import Parsing
  import IntegerVar
  import FloatVar
  import Decimal

  /** An escape has no other case, so unescaping commutes with changing case. */
  lemma {:induction false} UnescapeKeepsAgreement(s: string, t: string)
    requires AgreeButForCase(s, t)
    ensures AgreeButForCase(Unescape(s), Unescape(t)) && UnescapeState(s).1 == UnescapeState(t).1
    decreases |s|
  {
    if s != "" {
      UnescapeKeepsAgreement(s[..|s| - 1], t[..|t| - 1]);
      assert SameButForCase(s[|s| - 1], t[|t| - 1]);
    }
  }

  lemma NumberHasNoLetters(v: string)
    requires !Classify(v).DictionaryKind?
    ensures forall i :: 0 <= i < |v| ==> !Parsing.IsAlphabet(v[i])
  {
    forall i | 0 <= i < |v| ensures !Parsing.IsAlphabet(v[i]) {
      if IntegerVar.ConvertStringToIntegerVar(v).Some? {
        if v[0] == '-' && i > 0 { assert Decimal.IsDigit(v[1..][i - 1]); }
      } else {
        var p := FloatVar.PointOf(v);
        assert i == p || i < FloatVar.SignLength(v) || Decimal.IsDigit(v[i]);
      }
    }
  }

  /** A number agrees with itself only. */
  lemma NumberHasOneCase(s: string, t: string)
    requires AgreeButForCase(s, t) && (!Classify(s).DictionaryKind? || !Classify(t).DictionaryKind?)
    ensures s == t
  {
    if !Classify(s).DictionaryKind? {
      NumberHasNoLetters(s);
    } else {
      NumberHasNoLetters(t);
    }
  }

  lemma NumberIsEscapeFree(v: string)
    requires !Classify(v).DictionaryKind?
    ensures EscapeFree(v)
  {
    if !EscapeFree(v) { EscapedIsDictionaryKind(v); }
  }

  /** A query in another case is classified as the variable is, and stands for it up to case. */
  lemma QueryStandsFor(v: string, q: string)
    requires AgreeButForCase(q, EscapeAll(v))
    ensures AgreeButForCase(Unescape(q), v)
    ensures !Classify(v).DictionaryKind? ==> q == v
    ensures Classify(v).DictionaryKind? ==> Classify(q).DictionaryKind?
  {
    UnescapeOfEscapeAll(v);
    UnescapeKeepsAgreement(q, EscapeAll(v));
    if !Classify(v).DictionaryKind? {
      NumberIsEscapeFree(v);
      EscapeAllOfEscapeFree(v);
      NumberHasOneCase(q, v);
    } else if !Classify(q).DictionaryKind? {
      NumberHasOneCase(q, EscapeAll(v));
      NumberIsEscapeFree(q);
      UnescapeFixpoint(q);
      assert false;
    }
  }

  /** The result names what compression stored for v; what else it names stands for entries that agree
      with v up to case. */
  ghost predicate FindsUpToCase(r: SearchResult, v: string, id: nat, entries: seq<string>)
    requires id < TWO_64
  {
    match r
    case ImpreciseDictVar(values, ids) =>
      && Classify(v).DictionaryKind?
      && id in ids && EncodedValue(v, id) in values
      && ids == (set i: nat | i < |entries| && AgreeButForCase(entries[i], v))
      && values == EncodedIds(ids)
    case _ => FindsStored(r, v, id)
  }

  lemma IdsAgree(entries: seq<string>, s: string, t: string)
    requires AgreeButForCase(s, t)
    ensures IdsIgnoringCase(entries, s) == IdsIgnoringCase(entries, t)
  {
    forall i | 0 <= i < |entries| ensures AgreeButForCase(entries[i], s) <==> AgreeButForCase(entries[i], t) {
      UpperComparesButForCase(entries[i], s);
      UpperComparesButForCase(entries[i], t);
      UpperComparesButForCase(s, t);
    }
  }

  lemma AgreesWithItself(s: string)
    ensures AgreeButForCase(s, s)
  {
  }

  /** The IDs a re-cased query looks for: those of the entries that agree with v, with v's own among them. */
  lemma OwnIdIsSought(v: string, q: string, entries: seq<string>, id: nat)
    requires AgreeButForCase(q, EscapeAll(v)) && id < |entries| && entries[id] == v
    ensures IdsIgnoringCase(entries, Unescape(q)) == IdsIgnoringCase(entries, v)
    ensures id in IdsIgnoringCase(entries, v)
  {
    QueryStandsFor(v, q);
    IdsAgree(entries, Unescape(q), v);
    AgreesWithItself(v);
  }

  /** Every stored variable is found, ignoring case, by its escaped form in any case. */
  lemma EveryCaseIsSearchable(v: string, q: string, entries: seq<string>, id: nat, r: SearchResult)
    requires v != "" && |entries| <= TWO_64 && id < TWO_64
    requires Classify(v).DictionaryKind? ==> id < |entries| && entries[id] == v
    requires AgreeButForCase(q, EscapeAll(v)) && SearchFinds(q, entries, true, r)
    ensures FindsUpToCase(r, v, id, entries)
  {
    EscapeAllOfEscapeFree(v);
    QueryStandsFor(v, q);
    if Classify(v).DictionaryKind? {
      OwnIdIsSought(v, q, entries, id);
      var ids := IdsIgnoringCase(entries, v);
      assert ids == set i: nat | i < |entries| && AgreeButForCase(entries[i], v);
    }
  }

  /** A variable, once encoded, is found by its escaped form in any case. */
  method EncodeThenSearchIgnoringCase(v: string, q: string, entry: LogTypeDictionaryEntry,
                                      dict: VariableDictionaryWriter)
    returns (stored: Result<(int, seq<nat>), Error>, found: SearchResult)
    requires dict.Valid() && v != "" && AgreeButForCase(q, EscapeAll(v))
    modifies entry, dict
    ensures dict.Valid()
    ensures stored.Err? <==> Classify(v).DictionaryKind? && v !in old(dict.written) && |old(dict.written)| > dict.maxId
    ensures stored.Ok? && stored.value.1 == [] ==>
              && found.NonDictVar? && found.value == stored.value.0
              && entry.View() == old(entry.View()).AddPlaceholder(found.placeholder)
    ensures stored.Ok? && stored.value.1 != [] ==>
              && entry.View() == old(entry.View()).AddPlaceholder(DICTIONARY_PLACEHOLDER)
              && (|| (found.DictVar? && found.value == stored.value.0 && stored.value.1 == [found.id])
                  || (found.ImpreciseDictVar? && stored.value.0 in found.values && stored.value.1[0] in found.ids))
  {
    stored := EncodeVar(v, entry, dict);
    found := EncodeAndSearchDictionary(q, dict.written, true);
    if stored.Ok? {
      ghost var id := if stored.value.1 == [] then 0 else stored.value.1[0];
      EveryCaseIsSearchable(v, q, dict.written, id, found);
    }
  }

  /** A dictionary made by compressing messages holds an entry that agrees with the target exactly if a
      dictionary variable of some message does. */
  lemma AgreeingEntry(messages: seq<string>, target: string)
    ensures IdsIgnoringCase(Entries([], AllVariables(messages)), target) == {}
            <==> forall v :: v in AllVariables(messages) && Classify(v).DictionaryKind? ==> !AgreeButForCase(v, target)
  {
    var entries := Entries([], AllVariables(messages));
    forall v ensures v in entries <==> v in AllVariables(messages) && Classify(v).DictionaryKind? {
      EntriesAre([], AllVariables(messages), v);
    }
    if IdsIgnoringCase(entries, target) == {} {
      forall v | v in entries ensures !AgreeButForCase(v, target) {
        var i :| 0 <= i < |entries| && entries[i] == v;
        assert i !in IdsIgnoringCase(entries, target);
      }
    }
  }

  /** A query after compression, ignoring case: a string is not found exactly if it does not read as a number
      and no dictionary variable of any message agrees with it. */
  method CompressThenSearchIgnoringCase(messages: seq<string>, q: string, maxId: nat)
    returns (r: Result<SearchResult, Error>)
    requires maxId < TWO_64
    ensures r.Ok? <==> |Entries([], AllVariables(messages))| <= maxId + 1
    ensures r.Ok? && q != "" ==>
              (r.value == NotFound <==>
                 && Classify(q).DictionaryKind?
                 && forall v :: v in AllVariables(messages) && Classify(v).DictionaryKind? ==>
                      !AgreeButForCase(v, Unescape(q)))
  {
    var dict := new VariableDictionaryWriter(maxId);
    var ok := CompressAll(messages, dict);
    if !ok { return Err(OutOfIds); }
    var found := EncodeAndSearchDictionary(q, dict.written, true);
    AgreeingEntry(messages, Unescape(q));
    return Ok(found);
  }
}
