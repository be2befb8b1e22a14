/** Encoding messages into a logtype and variables, and decoding them back
    (EncodedVariableInterpreter.hpp, VariableDictionaryWriter.cpp). */
module Message {
  import opened Sequences
  import opened Wrappers
  import opened Words
  import opened Logtype
  import IntegerVar
  import FloatVar

  datatype Error = OutOfIds

  /** The outcome of decoding; Malformed stands for a float word that no encoder produced. */
  datatype DecodeResult =
    | Decoded(text: string)
    | VariableCountMismatch
    | UnexpectedPlaceholder
    | CorruptDictionaryId
    | Malformed

  /** The text one placeholder stands for, given the variable it consumes. */
  function RenderVariable(placeholder: char, v: int, dict: seq<string>): DecodeResult
    requires IsInt64(v)
  {
    if placeholder == INTEGER_PLACEHOLDER then Decoded(IntegerVar.IntText(v))
    else if placeholder == FLOAT_PLACEHOLDER then
      var parts := FloatVar.Unpack(Int64ToWord(v));
      if parts.Encodable() then Decoded(FloatVar.FloatText(parts)) else Malformed
    else if placeholder == DICTIONARY_PLACEHOLDER then
      var id := Int64ToWord(v);
      if id < |dict| then Decoded(dict[id]) else CorruptDictionaryId
    else UnexpectedPlaceholder
  }

  predicate AllInt64(vars: seq<int>) {
    forall i :: 0 <= i < |vars| ==> IsInt64(vars[i])
  }

  /** The text after placeholder k is replaced, given the text up to the previous one. */
  function DecodeStep(l: Logtype, vars: seq<int>, dict: seq<string>, k: nat, front: string): DecodeResult
    requires l.WellFormed() && k < |l.positions| && AllInt64(vars)
  {
    var position := l.positions[k];
    var text := front + l.value[l.ConstantBegin(k)..position];
    var placeholder := l.value[position];
    if placeholder == ESCAPE then Decoded(text)
    else if NumVariables(l, k) >= |vars| then VariableCountMismatch
    else
      var rendered := RenderVariable(placeholder, vars[NumVariables(l, k)], dict);
      if rendered.Decoded? then Decoded(text + rendered.text) else rendered
  }

  /** The text decoded once the first k placeholders are replaced. */
  function DecodeUpTo(l: Logtype, vars: seq<int>, dict: seq<string>, k: nat): DecodeResult
    requires l.WellFormed() && k <= |l.positions| && AllInt64(vars)
    decreases k
  {
    if k == 0 then Decoded("")
    else
      var front := DecodeUpTo(l, vars, dict, k - 1);
      if front.Decoded? then DecodeStep(l, vars, dict, k - 1, front.text) else front
  }

  /** The message a logtype and its variables stand for. */
  function Decode(l: Logtype, vars: seq<int>, dict: seq<string>): DecodeResult
    requires l.WellFormed() && AllInt64(vars)
  {
    var n := |l.positions|;
    if n - l.numEscaped != |vars| then VariableCountMismatch
    else
      var front := DecodeUpTo(l, vars, dict, n);
      if front.Decoded? then Decoded(front.text + l.value[l.ConstantBegin(n)..]) else front
  }

  /** Decoding the first k placeholders looks only at the text, variables and entries present then. */
  lemma {:induction false} DecodeUpToExtends(
    l: Logtype, vars: seq<int>, dict: seq<string>, m: Logtype, vars': seq<int>, dict': seq<string>, k: nat)
    requires l.WellFormed() && m.WellFormed() && k <= |l.positions|
    requires l.value <= m.value && l.positions <= m.positions
    requires AllInt64(vars) && AllInt64(vars') && vars <= vars' && dict <= dict'
    ensures NumVariables(m, k) == NumVariables(l, k)
    ensures DecodeUpTo(l, vars, dict, k).Decoded? ==>
              DecodeUpTo(m, vars', dict', k) == DecodeUpTo(l, vars, dict, k)
    decreases k
  {
    if k != 0 {
      DecodeUpToExtends(l, vars, dict, m, vars', dict', k - 1);
      var position := l.positions[k - 1];
      assert m.positions[k - 1] == position && m.value[position] == l.value[position];
      assert m.ConstantBegin(k - 1) == l.ConstantBegin(k - 1);
      assert m.value[l.ConstantBegin(k - 1)..position] == l.value[l.ConstantBegin(k - 1)..position];
    }
  }

  /** A message as it is stored: its logtype, its encoded variables and the dictionary entries. */
  datatype Encoded = Encoded(logtype: Logtype, vars: seq<int>, dict: seq<string>)

  /** The stored form reads back from disk unchanged and decodes to the text. */
  ghost predicate Represents(e: Encoded, text: string) {
    && Scanned(e.logtype)
    && AllInt64(e.vars)
    && |e.logtype.positions| == e.logtype.numEscaped + |e.vars|
    && NumVariables(e.logtype, |e.logtype.positions|) == |e.vars|
    && Decode(e.logtype, e.vars, e.dict) == Decoded(text)
  }

  lemma RepresentsNothing(dict: seq<string>)
    ensures Represents(Encoded(EMPTY, [], dict), "")
  {
  }

  /** Growing the dictionary does not change what a stored message means. */
  lemma RepresentsWithMoreEntries(e: Encoded, text: string, dict: seq<string>)
    requires Represents(e, text) && e.dict <= dict
    ensures Represents(e.(dict := dict), text)
  {
    DecodeUpToExtends(e.logtype, e.vars, e.dict, e.logtype, e.vars, dict, |e.logtype.positions|);
  }

  /** Appending an ordinary character appends it to the message. */
  lemma TextAfterConstant(e: Encoded, text: string, c: string)
    requires e.logtype.WellFormed() && AllInt64(e.vars)
    requires Decode(e.logtype, e.vars, e.dict) == Decoded(text)
    ensures var l := e.logtype.AddConstant(c);
            && l.WellFormed()
            && NumVariables(l, |l.positions|) == NumVariables(e.logtype, |l.positions|)
            && Decode(l, e.vars, e.dict) == Decoded(text + c)
  {
    var l := e.logtype.AddConstant(c);
    var n := |l.positions|;
    DecodeUpToExtends(e.logtype, e.vars, e.dict, l, e.vars, e.dict, n);
    SuffixGrows(e.logtype.value, c, l.ConstantBegin(n));
    Associative(DecodeUpTo(l, e.vars, e.dict, n).text, e.logtype.value[l.ConstantBegin(n)..], c);
  }

  /** The entry m is l with one more placeholder or escape. */
  predicate Extends(l: Logtype, m: Logtype, c: char) {
    m.value == l.value + [c] && m.positions == l.positions + [|l.value|]
  }

  lemma ExtendsMeans(l: Logtype, m: Logtype, c: char)
    requires l.WellFormed() && Extends(l, m, c)
    ensures m.WellFormed() && l.value <= m.value && l.positions <= m.positions
    ensures var n := |l.positions|;
            && m.positions[n] == |l.value| && m.value[|l.value|] == c
            && m.ConstantBegin(n) == l.ConstantBegin(n) <= |l.value|
            && m.value[m.ConstantBegin(n)..|l.value|] == l.value[l.ConstantBegin(n)..]
            && m.value[m.ConstantBegin(n + 1)..] == ""
  {
    SuffixGrows(l.value, [c], l.ConstantBegin(|l.positions|));
  }

  /** What was decoded so far, with the constant after it, is the text so far. */
  lemma FrontExtends(e: Encoded, text: string, m: Logtype, c: char, vars: seq<int>, dict: seq<string>)
    requires e.logtype.WellFormed() && AllInt64(e.vars) && Extends(e.logtype, m, c) && m.WellFormed()
    requires Decode(e.logtype, e.vars, e.dict) == Decoded(text)
    requires AllInt64(vars) && e.vars <= vars && e.dict <= dict
    ensures var n := |e.logtype.positions|;
            && NumVariables(m, n) == NumVariables(e.logtype, n)
            && DecodeUpTo(m, vars, dict, n).Decoded?
            && DecodeUpTo(m, vars, dict, n).text + e.logtype.value[e.logtype.ConstantBegin(n)..] == text
  {
    ExtendsMeans(e.logtype, m, c);
    DecodeUpToExtends(e.logtype, e.vars, e.dict, m, vars, dict, |e.logtype.positions|);
  }

  /** Appending an escape leaves the message as it is. */
  lemma TextAfterEscape(e: Encoded, text: string)
    requires e.logtype.WellFormed() && AllInt64(e.vars)
    requires Decode(e.logtype, e.vars, e.dict) == Decoded(text)
    ensures var l := e.logtype.AddEscape();
            && l.WellFormed()
            && NumVariables(l, |l.positions|) == NumVariables(e.logtype, |e.logtype.positions|)
            && Decode(l, e.vars, e.dict) == Decoded(text)
  {
    var l := e.logtype.AddEscape();
    ExtendsMeans(e.logtype, l, ESCAPE);
    FrontExtends(e, text, l, ESCAPE, e.vars, e.dict);
    assert DecodeUpTo(l, e.vars, e.dict, |l.positions|) == Decoded(text);
    NothingAdded(text);
  }

  /** Appending a placeholder and its variable appends the variable's text. */
  lemma TextAfterPlaceholder(e: Encoded, text: string, c: char, v: int, dict: seq<string>)
    requires e.logtype.WellFormed() && AllInt64(e.vars) && IsInt64(v) && e.dict <= dict
    requires Decode(e.logtype, e.vars, e.dict) == Decoded(text)
    requires NumVariables(e.logtype, |e.logtype.positions|) == |e.vars|
    requires IsVariablePlaceholder(c) && RenderVariable(c, v, dict).Decoded?
    ensures var l := e.logtype.AddPlaceholder(c);
            && l.WellFormed()
            && NumVariables(l, |l.positions|) == |e.vars| + 1
            && Decode(l, e.vars + [v], dict) == Decoded(text + RenderVariable(c, v, dict).text)
  {
    var l := e.logtype.AddPlaceholder(c);
    ExtendsMeans(e.logtype, l, c);
    FrontExtends(e, text, l, c, e.vars + [v], dict);
    LastOfPush(e.vars, v);
    var t := text + RenderVariable(c, v, dict).text;
    assert DecodeUpTo(l, e.vars + [v], dict, |l.positions|) == Decoded(t);
    NothingAdded(t);
  }

  /** Adding one character of constant text, escaped if need be, appends it. */
  lemma RepresentsChar(e: Encoded, text: string, c: char)
    requires Represents(e, text)
    ensures var l := (if NeedsEscape(c) then e.logtype.AddEscape() else e.logtype).AddConstant([c]);
            Scanned(l) ==> Represents(e.(logtype := l), text + [c])
  {
    if NeedsEscape(c) {
      TextAfterEscape(e, text);
      TextAfterConstant(e.(logtype := e.logtype.AddEscape()), text, [c]);
    } else {
      TextAfterConstant(e, text, [c]);
    }
  }

  /** Adding constant text, whatever characters it holds, appends exactly that text. */
  lemma {:induction false} RepresentsStaticText(e: Encoded, text: string, c: string)
    requires Represents(e, text)
    ensures Represents(e.(logtype := e.logtype.AddStaticText(c)), text + c)
    decreases |c|
  {
    StaticTextKeepsScanned(e.logtype, c);
    if c == "" {
      NothingAdded(text);
    } else {
      var front, last := c[..|c| - 1], c[|c| - 1];
      RepresentsStaticText(e, text, front);
      RepresentsChar(e.(logtype := e.logtype.AddStaticText(front)), text + front, last);
      Associative(text, front, [last]);
      TakeNext(c, |c| - 1);
      TakeAll(c);
    }
  }

  /** The kind of variable a string is encoded as. */
  datatype VarKind = IntegerKind(value: int) | FloatKind(value: int) | DictionaryKind

  ghost function Classify(v: string): VarKind {
    var n := IntegerVar.ConvertStringToIntegerVar(v);
    if n.Some? then IntegerKind(n.value)
    else if FloatVar.IsFloatText(v) then FloatKind(FloatVar.Encoding(v))
    else DictionaryKind
  }

  ghost function PlaceholderOf(k: VarKind): char {
    match k
    case IntegerKind(_) => INTEGER_PLACEHOLDER
    case FloatKind(_) => FLOAT_PLACEHOLDER
    case DictionaryKind => DICTIONARY_PLACEHOLDER
  }

  /** The encoded value of a variable, for the dictionary ID it was given if it needed one. */
  ghost function EncodedValue(v: string, id: nat): int
    requires id < TWO_64
  {
    match Classify(v)
    case IntegerKind(n) => n
    case FloatKind(n) => n
    case DictionaryKind => WordToInt64(id)
  }

  /** Adding an encoded variable, of whichever kind, appends the variable's text. */
  lemma RepresentsVariable(e: Encoded, text: string, v: string, id: nat, dict: seq<string>)
    requires Represents(e, text) && e.dict <= dict && id < TWO_64
    requires Classify(v).DictionaryKind? ==> id < |dict| && dict[id] == v
    ensures var l := e.logtype.AddPlaceholder(PlaceholderOf(Classify(v)));
            Represents(Encoded(l, e.vars + [EncodedValue(v, id)], dict), text + v)
  {
    var c := PlaceholderOf(Classify(v));
    PlaceholderKeepsScanned(e.logtype, c);
    var n := EncodedValue(v, id);
    match Classify(v) {
      case IntegerKind(_) => IntegerVar.IntTextOfConvert(v);
      case FloatKind(_) => FloatVar.RoundTrip(v);
      case DictionaryKind =>
    }
    assert RenderVariable(c, n, dict) == Decoded(v);
    TextAfterPlaceholder(e, text, c, n, dict);
  }

  /** One piece of a message: constant text, or a variable with the ID it gets if it needs one. */
  datatype Piece = Constant(text: string) | Variable(text: string, id: nat)

  function TextOf(pieces: seq<Piece>): string {
    if pieces == [] then "" else TextOf(pieces[..|pieces| - 1]) + pieces[|pieces| - 1].text
  }

  ghost predicate IdsMatch(pieces: seq<Piece>, dict: seq<string>) {
    forall i :: 0 <= i < |pieces| && pieces[i].Variable? ==>
      && pieces[i].id < TWO_64
      && (Classify(pieces[i].text).DictionaryKind? ==>
            pieces[i].id < |dict| && dict[pieces[i].id] == pieces[i].text)
  }

  ghost function EncodePieces(pieces: seq<Piece>, dict: seq<string>): (e: Encoded)
    requires IdsMatch(pieces, dict)
    ensures e.dict == dict
  {
    if pieces == [] then Encoded(EMPTY, [], dict)
    else
      var e := EncodePieces(pieces[..|pieces| - 1], dict);
      match pieces[|pieces| - 1]
      case Constant(text) => e.(logtype := e.logtype.AddStaticText(text))
      case Variable(text, id) =>
        Encoded(e.logtype.AddPlaceholder(PlaceholderOf(Classify(text))), e.vars + [EncodedValue(text, id)], dict)
  }

  /** Any interleaving of constants and variables decodes to the original text. */
  lemma {:induction false} PiecesRoundTrip(pieces: seq<Piece>, dict: seq<string>)
    requires IdsMatch(pieces, dict)
    ensures Represents(EncodePieces(pieces, dict), TextOf(pieces))
    decreases |pieces|
  {
    if pieces == [] {
      RepresentsNothing(dict);
    } else {
      var front := pieces[..|pieces| - 1];
      PiecesRoundTrip(front, dict);
      var e := EncodePieces(front, dict);
      match pieces[|pieces| - 1]
      case Constant(text) => RepresentsStaticText(e, TextOf(front), text);
      case Variable(text, id) => RepresentsVariable(e, TextOf(front), text, id, dict);
    }
  }
}
