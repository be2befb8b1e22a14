/** The variable dictionary and the compression and query sides of variable encoding
    (VariableDictionaryWriter.cpp, EncodedVariableInterpreter.hpp, DictionaryReader.hpp). */
module Interpreter {
  import opened Sequences
  import opened Wrappers
  import opened Words
  import opened Logtype
  import opened Message
  import IntegerVar
  import FloatVar
  import opened DictionaryIds
  import opened VariableEntries
  import Parsing
  import VariableText

  class VariableDictionaryWriter {
    const maxId: nat
    var valueToId: map<string, nat>
    var nextId: nat
    /** The entries written out so far, in order. */
    var written: seq<string>

    ghost predicate Valid()
      reads this
    {
      && nextId == |written| <= maxId + 1 <= TWO_64
      && (forall i :: 0 <= i < |written| ==> written[i] in valueToId && valueToId[written[i]] == i)
      && (forall v :: v in valueToId ==> valueToId[v] < |written| && written[valueToId[v]] == v)
    }

    constructor (maxId: nat)
      requires maxId < TWO_64
      ensures Valid() && written == [] && this.maxId == maxId
    {
      this.maxId := maxId;
      valueToId, nextId, written := map[], 0, [];
    }

    /** Finds the value's ID or gives it the next one; fails only when it needs one and none is left. */
    method AddEntry(value: string) returns (r: Result<nat, Error>)
      requires Valid()
      modifies this
      ensures Valid()
      ensures r.Ok? ==> r.value < |written| && written[r.value] == value
      ensures r.Err? <==> value !in old(written) && |old(written)| > maxId
      ensures written == if r.Ok? && value !in old(written) then old(written) + [value] else old(written)
    {
      if value in valueToId {
        r := Ok(valueToId[value]);
      } else {
        if nextId > maxId { return Err(OutOfIds); }
        r := Ok(nextId);
        valueToId := valueToId[value := nextId];
        nextId := nextId + 1;
        written := written + [value];
      }
    }
  }

  /** Encodes one variable, adding a placeholder to the logtype and the variable to the dictionary if
      it is neither an integer nor a float. */
  method EncodeVar(v: string, entry: LogTypeDictionaryEntry, dict: VariableDictionaryWriter)
    returns (r: Result<(int, seq<nat>), Error>)
    requires dict.Valid()
    modifies entry, dict
    ensures dict.Valid() && (r.Ok? ==> dict.written == WithEntry(old(dict.written), v))
    ensures r.Ok? ==> entry.View() == old(entry.View()).AddPlaceholder(PlaceholderOf(Classify(v)))
    ensures r.Ok? && Classify(v).DictionaryKind? ==>
              exists id :: 0 <= id < |dict.written| && dict.written[id] == v && r.value == (EncodedValue(v, id), [id])
    ensures r.Ok? && !Classify(v).DictionaryKind? ==> r.value == (Classify(v).value, [])
    ensures r.Err? <==> Classify(v).DictionaryKind? && v !in old(dict.written) && |old(dict.written)| > dict.maxId
    ensures r.Err? ==> entry.View() == old(entry.View()) && dict.written == old(dict.written)
  {
    var n := IntegerVar.ConvertStringToIntegerVar(v);
    if n.Some? {
      entry.AddPlaceholder(INTEGER_PLACEHOLDER);
      return Ok((n.value, []));
    }
    var f := FloatVar.ConvertStringToFloatVar(v);
    if f.Some? {
      entry.AddPlaceholder(FLOAT_PLACEHOLDER);
      return Ok((f.value, []));
    }
    var added := dict.AddEntry(v);
    match added {
      case Err(e) => return Err(e);
      case Ok(id) =>
        entry.AddPlaceholder(DICTIONARY_PLACEHOLDER);
        return Ok((WordToInt64(id), [id]));
    }
  }

  lemma Glue(s: string, i: nat, j: nat)
    requires i <= j <= |s|
    ensures s[..i] + s[i..j] == s[..j]
    ensures s[..|s|] == s && s[i..|s|] == s[i..]
  {
  }

  /** Adds the constant text up to the next variable, or to the end if there is none. */
  method ParseNextVar(message: string, lastEnd: nat, entry: LogTypeDictionaryEntry)
    returns (found: bool, begin: nat, end: nat)
    requires lastEnd <= |message|
    modifies entry
    ensures found ==> Parsing.IsVariable(message, lastEnd, begin, end)
    ensures found ==> Parsing.NoVariableBefore(message, lastEnd, begin)
    ensures !found ==> begin == |message| && Parsing.NoVariableBefore(message, lastEnd, |message|)
    ensures lastEnd <= begin <= |message| && entry.View() == old(entry.View()).AddStaticText(message[lastEnd..begin])
  {
    found, begin, end := Parsing.GetBoundsOfNextVar(message, lastEnd);
    if found {
      entry.AddStaticText(message[lastEnd..begin]);
    } else {
      begin := |message|;
      Glue(message, lastEnd, |message|);
      if lastEnd < |message| {
        entry.AddStaticText(message[lastEnd..]);
      }
    }
  }

  /** Encodes a variable found in a message. */
  method EncodeNextVar(v: string, ghost text: string, entry: LogTypeDictionaryEntry, dict: VariableDictionaryWriter,
                       ghost vars: seq<int>)
    returns (r: Result<(int, seq<nat>), Error>)
    requires dict.Valid() && Represents(Encoded(entry.View(), vars, dict.written), text)
    modifies entry, dict
    ensures dict.Valid() && (r.Ok? ==> dict.written == WithEntry(old(dict.written), v))
    ensures r.Ok? ==> Represents(Encoded(entry.View(), vars + [r.value.0], dict.written), text + v)
    ensures r.Ok? ==> entry.View() == old(entry.View()).AddPlaceholder(PlaceholderOf(Classify(v)))
    ensures r.Ok? ==> StandsFor(r.value.0, v, dict.written)
    ensures r.Ok? ==> AllLookedUp(entry.View(), vars + [r.value.0])
                      == old(AllLookedUp(entry.View(), vars)) + r.value.1
    ensures r.Err? ==> dict.written == old(dict.written) && |dict.written| > dict.maxId
    ensures r.Err? ==> Classify(v).DictionaryKind? && v !in dict.written
  {
    ghost var stored := Encoded(entry.View(), vars, dict.written);
    r := EncodeVar(v, entry, dict);
    if r.Ok? {
      AppendVariable(stored, text, v, r.value.0, dict.written);
      LookedUpNext(stored.logtype, entry.View(), PlaceholderOf(Classify(v)), vars, r.value.0);
    }
  }

  /** Parses a message into a logtype and encoded variables. What is stored reads back from disk and
      decodes to the message, and the reported IDs are exactly those that decoding looks up. The dictionary
      grows by the message's variables; this fails exactly if they do not all get an ID. */
  method EncodeAndAddToDictionary(message: string, entry: LogTypeDictionaryEntry, dict: VariableDictionaryWriter)
    returns (r: Result<(seq<int>, seq<nat>), Error>)
    requires dict.Valid()
    modifies entry, dict
    ensures dict.Valid() && old(dict.written) <= dict.written <= Entries(old(dict.written), VariablesOf(message))
    ensures r.Ok? ==> Represents(Encoded(entry.View(), r.value.0, dict.written), message)
    ensures r.Ok? ==> entry.View() == LogtypeOf(message)
    ensures r.Ok? ==> StandFor(r.value.0, VariablesOf(message), dict.written)
    ensures r.Ok? ==> r.value.1 == AllLookedUp(entry.View(), r.value.0)
    ensures r.Ok? <==> |Entries(old(dict.written), VariablesOf(message))| <= dict.maxId + 1
    ensures r.Ok? ==> dict.written == Entries(old(dict.written), VariablesOf(message))
    ensures r.Err? ==> |dict.written| == dict.maxId + 1
  {
    entry.Clear();
    var encodedVars: seq<int>, varIds: seq<nat> := [], [];
    var varEnd := 0;
    ghost var entries := Entries(dict.written, VariablesOf(message));
    ghost var values: seq<string> := [];
    RepresentsNothing(dict.written);
    assert message[..0] == "";
    while true
      invariant dict.Valid() && old(dict.written) <= dict.written
      invariant Entries(dict.written, VariablesFrom(message, varEnd)) == entries
      invariant 0 <= varEnd <= |message|
      invariant Represents(Encoded(entry.View(), encodedVars, dict.written), message[..varEnd])
      invariant LogtypeFrom(entry.View(), message, varEnd) == LogtypeOf(message)
      invariant values + VariablesFrom(message, varEnd) == VariablesOf(message)
      invariant StandFor(encodedVars, values, dict.written)
      invariant varIds == AllLookedUp(entry.View(), encodedVars)
      decreases |message| - varEnd
    {
      ghost var stored := Encoded(entry.View(), encodedVars, dict.written);
      var found, begin, end := ParseNextVar(message, varEnd, entry);
      RepresentsStaticText(stored, message[..varEnd], message[varEnd..begin]);
      StaticTextLooksUpNothing(stored.logtype, encodedVars, message[varEnd..begin]);
      Glue(message, varEnd, begin);
      if !found {
        NoVariables(message, varEnd);
        LogtypeEnds(stored.logtype, message, varEnd);
        return Ok((encodedVars, varIds));
      }
      Glue(message, begin, end);
      FirstVariable(message, varEnd, begin, end);
      LogtypeNext(stored.logtype, message, varEnd, begin, end);
      EntriesNext(dict.written, message[begin..end], VariablesFrom(message, end));
      var encoded := EncodeNextVar(message[begin..end], message[..begin], entry, dict, encodedVars);
      if encoded.Err? {
        NoRoomLeft(dict.written, message[begin..end], VariablesFrom(message, end));
        return Err(encoded.error);
      }
      StandForNext(encodedVars, values, stored.dict, encoded.value.0, message[begin..end], dict.written);
      Associative(values, [message[begin..end]], VariablesFrom(message, end));
      values := values + [message[begin..end]];
      encodedVars := encodedVars + [encoded.value.0];
      varIds := varIds + encoded.value.1;
      varEnd := end;
    }
  }

  lemma AppendVariable(e: Encoded, text: string, v: string, n: int, dict: seq<string>)
    requires Represents(e, text) && e.dict <= dict && |dict| <= TWO_64
    requires StandsFor(n, v, dict)
    ensures Represents(Encoded(e.logtype.AddPlaceholder(PlaceholderOf(Classify(v))), e.vars + [n], dict), text + v)
  {
    if Classify(v).DictionaryKind? {
      RepresentsVariable(e, text, v, Int64ToWord(n), dict);
    } else {
      RepresentsVariable(e, text, v, 0, dict);
    }
  }

  lemma {:induction false} NumVariablesMonotone(l: Logtype, i: nat, j: nat)
    requires l.WellFormed() && i <= j <= |l.positions|
    ensures NumVariables(l, i) <= NumVariables(l, j)
    decreases j
  {
    if i < j { NumVariablesMonotone(l, i, j - 1); }
  }

  lemma {:induction false} DecodeStops(l: Logtype, vars: seq<int>, dict: seq<string>, i: nat, j: nat)
    requires l.WellFormed() && i <= j <= |l.positions| && AllInt64(vars)
    requires !DecodeUpTo(l, vars, dict, i).Decoded?
    ensures DecodeUpTo(l, vars, dict, j) == DecodeUpTo(l, vars, dict, i)
    decreases j
  {
    if i < j { DecodeStops(l, vars, dict, i, j - 1); }
  }

  /** Replaces one placeholder: the text so far and the next variable's index, or what went wrong. */
  method DecodePlaceholder(
    l: Logtype, encodedVars: seq<int>, entries: seq<string>, ix: nat, msg: string, varIx: nat)
    returns (r: DecodeResult, nextVarIx: nat)
    requires CountsMatch(l) && AllInt64(encodedVars) && ix < |l.positions|
    requires |l.positions| == l.numEscaped + |encodedVars|
    requires varIx == NumVariables(l, ix) && DecodeUpTo(l, encodedVars, entries, ix) == Decoded(msg)
    ensures r == DecodeUpTo(l, encodedVars, entries, ix + 1)
    ensures nextVarIx == NumVariables(l, ix + 1)
  {
    NumVariablesMonotone(l, ix + 1, |l.positions|);
    var position := l.positions[ix];
    var placeholder := l.value[position];
    var text := msg + l.value[l.ConstantBegin(ix)..position];
    if placeholder == ESCAPE { return Decoded(text), varIx; }
    if placeholder == FLOAT_PLACEHOLDER && FloatVar.Unpack(Int64ToWord(encodedVars[varIx])).Encodable() {
      var chars := FloatVar.ConvertEncodedFloatToString(encodedVars[varIx]);
      return Decoded(text + chars[..]), varIx + 1;
    }
    var rendered := RenderVariable(placeholder, encodedVars[varIx], entries);
    r := if rendered.Decoded? then Decoded(text + rendered.text) else rendered;
    nextVarIx := varIx + 1;
  }

  /** Decodes a logtype and its variables; a decoded text is what the caller's buffer grows by. */
  method DecodeVariablesIntoMessage(
    entry: LogTypeDictionaryEntry, entries: seq<string>, encodedVars: seq<int>)
    returns (r: DecodeResult)
    requires CountsMatch(entry.View()) && AllInt64(encodedVars)
    ensures r == Decode(entry.View(), encodedVars, entries)
  {
    var l := Logtype(entry.value, entry.placeholderPositions, entry.numEscapedPlaceholders);
    var numPlaceholders := |l.positions|;
    if numPlaceholders - l.numEscaped != |encodedVars| { return VariableCountMismatch; }
    var msg := "";
    var varIx := 0;
    var ix := 0;
    while ix < numPlaceholders
      invariant 0 <= ix <= numPlaceholders && varIx == NumVariables(l, ix)
      invariant DecodeUpTo(l, encodedVars, entries, ix) == Decoded(msg)
    {
      var next;
      next, varIx := DecodePlaceholder(l, encodedVars, entries, ix, msg, varIx);
      if !next.Decoded? {
        DecodeStops(l, encodedVars, entries, ix + 1, numPlaceholders);
        return next;
      }
      msg := next.text;
      ix := ix + 1;
    }
    var constantBegin := l.ConstantBegin(numPlaceholders);
    if constantBegin < |l.value| { msg := msg + l.value[constantBegin..]; }
    return Decoded(msg);
  }

  /** Compression, storage of the logtype, and decompression compose to the identity, unless the message
      needs more dictionary IDs than there are. */
  method CompressThenDecompress(message: string, dict: VariableDictionaryWriter) returns (r: Result<string, Error>)
    requires dict.Valid()
    modifies dict
    ensures dict.Valid() && old(dict.written) <= dict.written <= Entries(old(dict.written), VariablesOf(message))
    ensures r.Ok? ==> r.value == message && dict.written == Entries(old(dict.written), VariablesOf(message))
    ensures r.Ok? <==> |Entries(old(dict.written), VariablesOf(message))| <= dict.maxId + 1
  {
    var entry := new LogTypeDictionaryEntry();
    var encoded := EncodeAndAddToDictionary(message, entry, dict);
    if encoded.Err? { return Err(encoded.error); }
    var loaded := new LogTypeDictionaryEntry();
    loaded.ReadFrom(entry.value);
    ScanCounts(entry.value);
    var decoded := DecodeVariablesIntoMessage(loaded, dict.written, encoded.value.0);
    return Ok(decoded.text);
  }

  /** Compresses a message that is one variable and a number. */
  method CompressNumber(v: string, entry: LogTypeDictionaryEntry, dict: VariableDictionaryWriter)
    returns (r: Result<(seq<int>, seq<nat>), Error>)
    requires dict.Valid() && !Classify(v).DictionaryKind?
    requires Parsing.IsVariable(v, 0, 0, |v|) && VariablesOf(v) == [v]
    modifies entry, dict
    ensures dict.Valid() && dict.written == old(dict.written) && r == Ok(([Classify(v).value], []))
    ensures entry.View() == Logtype([PlaceholderOf(Classify(v))], [0], 0)
  {
    EntriesNext(dict.written, v, []);
    r := EncodeAndAddToDictionary(v, entry, dict);
    VariableText.NumberIsStored(v, r.value.0, dict.written);
  }

  /** The text of a 64-bit integer alone is stored as that integer under an integer placeholder: one encoded
      variable and no dictionary entry. */
  method CompressInteger(n: int, entry: LogTypeDictionaryEntry, dict: VariableDictionaryWriter)
    returns (r: Result<(seq<int>, seq<nat>), Error>)
    requires dict.Valid() && IsInt64(n)
    modifies entry, dict
    ensures dict.Valid() && dict.written == old(dict.written) && r == Ok(([n], []))
    ensures entry.View() == Logtype([INTEGER_PLACEHOLDER], [0], 0)
  {
    IntegerVar.ConvertOfIntText(n);
    VariableText.IntegerIsVariable(n);
    r := CompressNumber(IntegerVar.IntText(n), entry, dict);
  }

  /** The text of a float alone is stored as one encoded variable, which prints as that text, under a float
      placeholder, with no dictionary entry. */
  method CompressFloat(v: string, entry: LogTypeDictionaryEntry, dict: VariableDictionaryWriter)
    returns (r: Result<(seq<int>, seq<nat>), Error>)
    requires dict.Valid() && FloatVar.IsFloatText(v)
    modifies entry, dict
    ensures dict.Valid() && dict.written == old(dict.written)
    ensures r.Ok? && |r.value.0| == 1 && r.value.1 == [] && IsInt64(r.value.0[0])
    ensures RenderVariable(FLOAT_PLACEHOLDER, r.value.0[0], []) == Decoded(v)
    ensures entry.View() == Logtype([FLOAT_PLACEHOLDER], [0], 0)
  {
    VariableText.FloatIsVariable(v);
    VariableText.FloatIsNoInteger(v);
    FloatVar.RoundTrip(v);
    r := CompressNumber(v, entry, dict);
  }
}
