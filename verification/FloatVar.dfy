/** The packed encoding of decimal-point variables (EncodedVariableInterpreter.cpp). */
module FloatVar {
  import opened Sequences
  import opened Wrappers
  import opened Words
  import opened Decimal

  const MAX_DIGITS: nat := 16
  const DIGITS_BIT_MASK: nat := 0x3F_FFFF_FFFF_FFFF

  /** The fields packed into an encoded float: sign, digits without the point, how many digits, and
      how many of them follow the point. */
  datatype FloatParts = FloatParts(negative: bool, digits: nat, numDigits: nat, decimalPos: nat) {
    predicate Encodable() {
      && 1 <= decimalPos <= numDigits <= MAX_DIGITS
      && digits < Pow10(numDigits)
    }
  }

  function SignLength(s: string): nat {
    if s != [] && s[0] == '-' then 1 else 0
  }

  /** An optional minus sign, then digits with one point at index p and a digit after it,
      at most 16 digits in all. */
  predicate HasPointAt(s: string, p: nat) {
    && SignLength(s) <= p < |s| - 1
    && s[p] == '.'
    && |s| - SignLength(s) <= MAX_DIGITS + 1
    && forall i :: SignLength(s) <= i < |s| && i != p ==> IsDigit(s[i])
  }

  ghost predicate IsFloatText(s: string) {
    exists p: nat :: HasPointAt(s, p)
  }

  /** The digits of a float text, without its sign and point. */
  function DigitsOf(s: string, p: nat): (d: string)
    requires HasPointAt(s, p)
    ensures AllDigits(d)
  {
    s[SignLength(s)..p] + s[p + 1..]
  }

  /** The digit characters of s[start..pos]. */
  function DigitsIn(s: string, start: nat, pos: nat): (d: string)
    requires start <= pos <= |s|
    ensures AllDigits(d) && |d| <= pos - start
    decreases pos
  {
    if pos == start then ""
    else if IsDigit(s[pos - 1]) then DigitsIn(s, start, pos - 1) + [s[pos - 1]]
    else DigitsIn(s, start, pos - 1)
  }

  lemma {:induction false} DigitsInIsDigitsOf(s: string, p: nat, pos: nat)
    requires HasPointAt(s, p) && SignLength(s) <= pos <= |s|
    ensures pos <= p ==> DigitsIn(s, SignLength(s), pos) == s[SignLength(s)..pos]
    ensures pos > p ==> DigitsIn(s, SignLength(s), pos) == s[SignLength(s)..p] + s[p + 1..pos]
    decreases pos
  {
    if pos > SignLength(s) {
      DigitsInIsDigitsOf(s, p, pos - 1);
      if pos <= p {
        SliceNext(s, SignLength(s), pos - 1);
      } else if pos == p + 1 {
        NothingAdded(s[SignLength(s)..p]);
      } else {
        SliceNext(s, p + 1, pos - 1);
        Associative(s[SignLength(s)..p], s[p + 1..pos - 1], [s[pos - 1]]);
      }
    }
  }

  function PartsAt(s: string, p: nat): (f: FloatParts)
    requires HasPointAt(s, p)
    ensures f.Encodable()
  {
    var d := DigitsOf(s, p);
    TextOfValue(d);
    FloatParts(SignLength(s) == 1, Value(d), |d|, |s| - 1 - p)
  }

  lemma ScannedParts(s: string, p: nat)
    requires HasPointAt(s, p)
    ensures var d := DigitsIn(s, SignLength(s), |s|);
            PartsAt(s, p) == FloatParts(SignLength(s) == 1, Value(d), |d|, |s| - 1 - p)
  {
    DigitsInIsDigitsOf(s, p, |s|);
    assert s[p + 1..|s|] == s[p + 1..];
  }

  function WithPoint(sign: string, digits: string, split: nat): string
    requires split <= |digits|
  {
    sign + digits[..split] + "." + digits[split..]
  }

  /** What a float's fields print as. */
  function FloatText(f: FloatParts): (s: string)
    requires f.Encodable()
    ensures |s| == f.numDigits + 1 + (if f.negative then 1 else 0)
  {
    WithPoint(if f.negative then "-" else "", Text(f.digits, f.numDigits), f.numDigits - f.decimalPos)
  }

  /** The shifts and masks that pack the four fields, for a digits shift of k and small fields of j bits. */
  function PackFields(sign: nat, digits: nat, a: nat, b: nat, k: nat, j: nat): nat {
    var w1 := Or(Shl(sign, k), And(digits, DIGITS_BIT_MASK));
    var w3 := Or(Shl(w1, j), And(a, 0x0F));
    Or(Shl(w3, j), And(b, 0x0F))
  }

  /** Packs a float: sign, an unused bit, 54 bits of digits, 4 bits each for the digit count and the
      point's position from the right, both minus one. */
  function Pack(f: FloatParts): (w: Word)
    requires f.Encodable()
    ensures w == Layout(f)
  {
    PackIsLayout(f);
    PackFields(if f.negative then 1 else 0, f.digits, f.numDigits - 1, f.decimalPos - 1, 55, 4)
  }

  /** Unpacks a word with the shifts and masks of the source. */
  function UnpackFields(w: nat, k: nat, j: nat): FloatParts {
    var w1 := Shr(w, j);
    var w2 := Shr(w1, j);
    FloatParts(Shr(w2, k) > 0, And(w2, DIGITS_BIT_MASK), And(w1, 0x0F) + 1, And(w, 0x0F) + 1)
  }

  function Unpack(w: Word): FloatParts {
    UnpackFields(w, 55, 4)
  }

  /** The packed value as a sum of its fields: no field reaches into its neighbour. */
  function Layout(f: FloatParts): nat
    requires f.Encodable()
  {
    (if f.negative then TWO_63 else 0) + 0x100 * f.digits + 0x10 * (f.numDigits - 1) + (f.decimalPos - 1)
  }

  lemma PowersOfTwo()
    ensures Pow2(4) == 0x10 && Pow2(54) == DIGITS_BIT_MASK + 1 && Pow2(55) == 0x80_0000_0000_0000
  {
    assert Pow2(8) == 0x100;
    assert Pow2(16) == 0x1_0000;
    assert Pow2(24) == 0x100_0000;
    assert Pow2(32) == 0x1_0000_0000;
    assert Pow2(40) == 0x100_0000_0000;
    assert Pow2(48) == 0x1_0000_0000_0000;
  }

  lemma {:induction false} Pow10Monotone(i: nat, j: nat)
    requires i <= j
    ensures Pow10(i) <= Pow10(j)
    decreases j - i
  {
    if i < j { Pow10Monotone(i + 1, j); }
  }

  /** Sixteen decimal digits fit the 54-bit field. */
  lemma DigitsFit(f: FloatParts)
    requires f.Encodable()
    ensures f.digits <= DIGITS_BIT_MASK
  {
    Pow10Monotone(f.numDigits, 16);
    assert Pow10(8) == 100_000_000;
    assert Pow10(16) == 10_000_000_000_000_000;
  }

  /** One packing step: shifting left by k and or-ing in a k-bit field appends the field. */
  lemma AppendField(x: nat, k: nat, p: nat, y: nat)
    requires Pow2(k) == p && y < p && x * p < TWO_64
    ensures Or(Shl(x, k), y) == x * p + y
  {
    assert x * Pow2(k) == x * p;
    ShlExact(x, k);
    OrDisjoint(x, k, y);
  }

  lemma MaskKeeps(k: nat, p: nat, y: nat)
    requires Pow2(k) == p && y < p
    ensures And(y, p - 1) == y
  {
    assert 0 * Pow2(k) + y == y;
    AndMask(0, k, y);
  }

  /** The matching unpacking step. */
  lemma SplitField(x: nat, k: nat, p: nat, y: nat)
    requires Pow2(k) == p && y < p
    ensures And(x * p + y, p - 1) == y && Shr(x * p + y, k) == x
  {
    AndMask(x, k, y);
    ShrDrops(x, k, y);
  }

  /** The three packing steps, with k bits for the digits field and j for the others. */
  lemma PackSteps(sign: nat, digits: nat, a: nat, b: nat, k: nat, j: nat)
    requires 0 < k && Pow2(k) == 0x80_0000_0000_0000 && Pow2(k - 1) == DIGITS_BIT_MASK + 1 && Pow2(j) == 0x10
    requires sign <= 1 && digits <= DIGITS_BIT_MASK && a < 0x10 && b < 0x10
    ensures PackFields(sign, digits, a, b, k, j) == sign * TWO_63 + 0x100 * digits + 0x10 * a + b
  {
    var w1 := Or(Shl(sign, k), And(digits, DIGITS_BIT_MASK));
    assert w1 == sign * 0x80_0000_0000_0000 + digits by {
      MaskKeeps(k - 1, DIGITS_BIT_MASK + 1, digits);
      AppendField(sign, k, 0x80_0000_0000_0000, digits);
    }
    var w3 := Or(Shl(w1, j), And(a, 0x0F));
    assert w3 == w1 * 0x10 + a by {
      MaskKeeps(j, 0x10, a);
      AppendField(w1, j, 0x10, a);
    }
    MaskKeeps(j, 0x10, b);
    AppendField(w3, j, 0x10, b);
  }

  lemma PackIsLayout(f: FloatParts)
    requires f.Encodable()
    ensures PackFields(if f.negative then 1 else 0, f.digits, f.numDigits - 1, f.decimalPos - 1, 55, 4)
            == Layout(f) < TWO_64
  {
    PowersOfTwo();
    DigitsFit(f);
    PackSteps(if f.negative then 1 else 0, f.digits, f.numDigits - 1, f.decimalPos - 1, 55, 4);
  }

  /** The unpacking steps, with the same field widths. */
  lemma UnpackSteps(sign: nat, digits: nat, a: nat, b: nat, k: nat, j: nat)
    requires 0 < k && Pow2(k) == 0x80_0000_0000_0000 && Pow2(k - 1) == DIGITS_BIT_MASK + 1 && Pow2(j) == 0x10
    requires sign <= 1 && digits <= DIGITS_BIT_MASK && a < 0x10 && b < 0x10
    ensures UnpackFields(sign * TWO_63 + 0x100 * digits + 0x10 * a + b, k, j)
            == FloatParts(sign == 1, digits, a + 1, b + 1)
  {
    var w2 := sign * 0x80_0000_0000_0000 + digits;
    var w1 := w2 * 0x10 + a;
    SplitField(w1, j, 0x10, b);
    SplitField(w2, j, 0x10, a);
    SignAndDigits(sign, digits, k, DIGITS_BIT_MASK + 1);
  }

  /** The top word holds the sign above the unused bit, and the digits below it. */
  lemma SignAndDigits(sign: nat, digits: nat, k: nat, half: nat)
    requires 0 < k && Pow2(k - 1) == half && sign <= 1 && digits < half
    ensures var w := sign * (2 * half) + digits;
            And(w, half - 1) == digits && Shr(w, k) == sign
  {
    assert Pow2(k) == 2 * half;
    assert sign * (2 * half) == (2 * sign) * half;
    SplitField(2 * sign, k - 1, half, digits);
    SplitField(sign, k, 2 * half, digits);
  }

  lemma UnpackLayout(f: FloatParts)
    requires f.Encodable()
    ensures UnpackFields(Layout(f), 55, 4) == f
  {
    PowersOfTwo();
    DigitsFit(f);
    UnpackSteps(if f.negative then 1 else 0, f.digits, f.numDigits - 1, f.decimalPos - 1, 55, 4);
  }

  /** Unpacking inverts packing on every encodable float. */
  lemma UnpackPack(f: FloatParts)
    requires f.Encodable()
    ensures Unpack(Pack(f)) == f
  {
    UnpackLayout(f);
  }

  /** A text is its sign, the digits before the point, the point and the digits after it. */
  lemma Rejoined(s: string, sign: nat, p: nat)
    requires sign <= p < |s| && s[p] == '.'
    ensures WithPoint(s[..sign], s[sign..p] + s[p + 1..], p - sign) == s
  {
    var d := s[sign..p] + s[p + 1..];
    assert d[..p - sign] == s[sign..p] && d[p - sign..] == s[p + 1..];
    assert s == s[..sign] + s[sign..p] + [s[p]] + s[p + 1..];
  }

  /** Printing the fields of a float text gives the text back, zeros and point included. */
  lemma FloatTextOfParts(s: string, p: nat)
    requires HasPointAt(s, p)
    ensures FloatText(PartsAt(s, p)) == s
  {
    TextOfValue(DigitsOf(s, p));
    Rejoined(s, SignLength(s), p);
    assert s[..SignLength(s)] == if SignLength(s) == 1 then "-" else "";
  }

  ghost function PointOf(s: string): (p: nat)
    requires IsFloatText(s)
    ensures HasPointAt(s, p)
  {
    var p: nat :| HasPointAt(s, p);
    p
  }

  lemma PointUnique(s: string, p: nat)
    requires HasPointAt(s, p)
    ensures PointOf(s) == p
  {
    var q := PointOf(s);
    assert s[q] == '.' && s[p] == '.';
  }

  /** The encoded value of a float text, as a signed 64-bit variable. */
  ghost function Encoding(s: string): int
    requires IsFloatText(s)
  {
    WordToInt64(Pack(PartsAt(s, PointOf(s))))
  }

  /** Decoding gives back exactly the text that was encoded. */
  lemma RoundTrip(s: string)
    requires IsFloatText(s)
    ensures IsInt64(Encoding(s))
    ensures Unpack(Int64ToWord(Encoding(s))).Encodable()
    ensures FloatText(Unpack(Int64ToWord(Encoding(s)))) == s
  {
    UnpackPack(PartsAt(s, PointOf(s)));
    FloatTextOfParts(s, PointOf(s));
  }

  /** Distinct accepted texts have distinct encodings. */
  lemma EncodingInjective(s: string, t: string)
    requires IsFloatText(s) && IsFloatText(t) && Encoding(s) == Encoding(t)
    ensures s == t
  {
    RoundTrip(s);
    RoundTrip(t);
  }

  /** Whether the characters from start to pos are digits, except possibly one point. */
  predicate DigitsWithPoint(s: string, start: nat, pos: nat, point: Option<nat>)
    requires start <= pos <= |s|
  {
    && (point.Some? ==> start <= point.value < pos && s[point.value] == '.')
    && forall i :: start <= i < pos && point != Some(i) ==> IsDigit(s[i])
  }

  lemma NotFloat(s: string, pos: nat, point: Option<nat>)
    requires SignLength(s) <= pos <= |s| && DigitsWithPoint(s, SignLength(s), pos, point)
    requires if pos == |s| then point.None? || point.value == |s| - 1
             else !IsDigit(s[pos]) && (s[pos] == '.' ==> point.Some?)
    ensures !IsFloatText(s)
  {
    forall p: nat ensures !HasPointAt(s, p) {
      assert p < pos ==> point == Some(p) || p < SignLength(s) || IsDigit(s[p]);
      assert pos < |s| && p != pos ==> !IsDigit(s[pos]);
    }
  }

  /** The conversion's scanning loop: counts and accumulates digits and notes the point. */
  method ScanDigits(value: string, start: nat) returns (point: Option<nat>, numDigits: nat, digits: nat, pos: nat)
    requires start <= |value|
    ensures start <= pos <= |value| && DigitsWithPoint(value, start, pos, point)
    ensures pos < |value| ==> !IsDigit(value[pos]) && (value[pos] == '.' ==> point.Some?)
    ensures numDigits == |DigitsIn(value, start, pos)| && digits == Value(DigitsIn(value, start, pos))
  {
    point, numDigits, digits, pos := None, 0, 0, start;
    while pos < |value|
      invariant start <= pos <= |value|
      invariant numDigits == |DigitsIn(value, start, pos)| && digits == Value(DigitsIn(value, start, pos))
      invariant DigitsWithPoint(value, start, pos, point)
    {
      var c := value[pos];
      ghost var seen := DigitsIn(value, start, pos);
      if IsDigit(c) {
        assert (seen + [c])[..|seen|] == seen;
        digits := digits * 10 + DigitValue(c);
        numDigits := numDigits + 1;
      } else if point.None? && c == '.' {
        point := Some(pos);
      } else {
        return;
      }
      pos := pos + 1;
    }
  }

  /** The scanning half of the conversion: the sign, the digits and the point's position. */
  method ScanFloat(value: string) returns (parts: Option<FloatParts>)
    ensures parts.Some? <==> IsFloatText(value)
    ensures parts.Some? ==> parts.value == PartsAt(value, PointOf(value))
  {
    if value == [] { return None; }
    var isNegative := value[0] == '-';
    var start := if isNegative then 1 else 0;
    var maxLength := MAX_DIGITS + 1 + start;
    if |value| > maxLength { return None; }
    var point, numDigits, digits, pos := ScanDigits(value, start);
    if pos < |value| || point.None? || point.value == |value| - 1 {
      NotFloat(value, pos, point);
      return None;
    }
    if numDigits == 0 { return None; }
    PointUnique(value, point.value);
    ScannedParts(value, point.value);
    return Some(FloatParts(isNegative, digits, numDigits, |value| - 1 - point.value));
  }

  /** Converts a string to an encoded float, accepting exactly the float texts. */
  method ConvertStringToFloatVar(value: string) returns (encoded: Option<int>)
    ensures encoded.Some? <==> IsFloatText(value)
    ensures encoded.Some? ==> encoded.value == Encoding(value)
  {
    var parts := ScanFloat(value);
    if parts.None? { return None; }
    return Some(WordToInt64(Pack(parts.value)));
  }

  function TextLength(f: FloatParts): nat {
    f.numDigits + 1 + (if f.negative then 1 else 0)
  }

  /** How many digits of a float lie to the right of index i of its text. */
  function DigitsRightOf(f: FloatParts, i: int): nat
    requires f.Encodable() && -1 <= i < TextLength(f)
  {
    var point := TextLength(f) - 1 - f.decimalPos;
    if i >= point then TextLength(f) - 1 - i else TextLength(f) - 2 - i
  }

  /** The character at index i of a float's text: sign, point, or the digit of the right weight. */
  function CharAt(f: FloatParts, i: nat): char
    requires f.Encodable() && i < TextLength(f)
  {
    if f.negative && i == 0 then '-'
    else if i == TextLength(f) - 1 - f.decimalPos then '.'
    else DigitChar(Drop(f.digits, DigitsRightOf(f, i)) % 10)
  }

  /** The characters of a text put together from its parts. */
  lemma WithPointAt(sign: string, digits: string, split: nat, i: nat)
    requires split <= |digits| && i < |sign| + |digits| + 1
    ensures |WithPoint(sign, digits, split)| == |sign| + |digits| + 1
    ensures WithPoint(sign, digits, split)[i]
         == if i < |sign| then sign[i]
            else if i < |sign| + split then digits[i - |sign|]
            else if i == |sign| + split then '.'
            else digits[i - |sign| - 1]
  {
  }

  lemma FloatTextAt(f: FloatParts, i: nat)
    requires f.Encodable() && i < TextLength(f)
    ensures FloatText(f)[i] == CharAt(f, i)
  {
    var sign := if f.negative then "-" else "";
    WithPointAt(sign, Text(f.digits, f.numDigits), f.numDigits - f.decimalPos, i);
    var point := TextLength(f) - 1 - f.decimalPos;
    if |sign| <= i < point {
      TextAt(f.digits, f.numDigits, i - |sign|);
    } else if point < i {
      TextAt(f.digits, f.numDigits, i - |sign| - 1);
    }
  }

  /** Decodes an encoded float into its text, writing the characters from right to left. Every index
      written lies inside the text for every word the encoder produces. */
  method ConvertEncodedFloatToString(encoded: int) returns (value: array<char>)
    requires IsInt64(encoded) && Unpack(Int64ToWord(encoded)).Encodable()
    ensures fresh(value)
    ensures value[..] == FloatText(Unpack(Int64ToWord(encoded)))
  {
    var f := Unpack(Int64ToWord(encoded));
    value := DecodeParts(f);
  }

  /** The text from index pos + 1 on is final, except possibly at the point, and digits holds what
      is left to print. */
  ghost predicate PrintedDownTo(f: FloatParts, value: array<char>, pos: int, digits: nat)
    reads value
    requires f.Encodable()
  {
    && value.Length == TextLength(f)
    && (if f.negative then 0 else -1) <= pos < value.Length
    && digits == Drop(f.digits, DigitsRightOf(f, pos))
    && (f.negative ==> value[0] == '-')
    && forall i :: pos < i < value.Length && i != value.Length - 1 - f.decimalPos ==> value[i] == CharAt(f, i)
  }

  /** Prints one digit at pos, which is not the point. */
  method PrintDigit(f: FloatParts, value: array<char>, pos: nat, digits: nat) returns (rest: nat)
    requires f.Encodable() && PrintedDownTo(f, value, pos, digits)
    requires pos != value.Length - 1 - f.decimalPos && (f.negative ==> pos > 0)
    modifies value
    ensures rest == digits / 10
    ensures PrintedDownTo(f, value, pos - 1, rest)
  {
    value[pos] := DigitChar(digits % 10);
    rest := digits / 10;
    DropStep(f.digits, DigitsRightOf(f, pos));
  }

  function Sign(f: FloatParts): nat {
    if f.negative then 1 else 0
  }

  /** The decoder's loop over the whole part: prints until no digits are left. */
  method PrintWholePart(f: FloatParts, value: array<char>, start: int, left: nat)
      returns (pos: int, numCharsToProcess: int)
    requires f.Encodable() && PrintedDownTo(f, value, start, left) && start < TextLength(f) - 1 - f.decimalPos
    modifies value
    ensures Sign(f) - 1 <= pos && numCharsToProcess == pos + 1 - Sign(f) && PrintedDownTo(f, value, pos, 0)
  {
    pos := start;
    numCharsToProcess := pos + 1 - Sign(f);
    var digits := left;
    while digits > 0
      invariant Sign(f) - 1 <= pos < TextLength(f) - 1 - f.decimalPos && numCharsToProcess == pos + 1 - Sign(f)
      invariant PrintedDownTo(f, value, pos, digits)
      decreases digits
    {
      assert pos >= Sign(f) by { DropBelowPow10(f.digits, f.numDigits); }
      digits := PrintDigit(f, value, pos, digits);
      numCharsToProcess := numCharsToProcess - 1;
      pos := pos - 1;
    }
  }

  /** The decoder's digit loops: first the fraction, then, past the point, the whole part. */
  method PrintDigits(f: FloatParts, value: array<char>) returns (pos: int, numCharsToProcess: int)
    requires f.Encodable() && value.Length == TextLength(f) && (f.negative ==> value[0] == '-')
    modifies value
    ensures Sign(f) - 1 <= pos && numCharsToProcess == pos + 1 - Sign(f) && PrintedDownTo(f, value, pos, 0)
  {
    numCharsToProcess := value.Length - Sign(f);
    var point := value.Length - 1 - f.decimalPos;
    var digits := f.digits;
    pos := value.Length - 1;
    while pos > point && digits > 0
      invariant point <= pos && numCharsToProcess == pos + 1 - Sign(f)
      invariant PrintedDownTo(f, value, pos, digits)
    {
      digits := PrintDigit(f, value, pos, digits);
      numCharsToProcess := numCharsToProcess - 1;
      pos := pos - 1;
    }
    if digits > 0 {
      pos, numCharsToProcess := PrintWholePart(f, value, pos - 1, digits);
    }
  }

  /** Decodes a float's fields: the digits, then the zeros, then the point. */
  method DecodeParts(f: FloatParts) returns (value: array<char>)
    requires f.Encodable()
    ensures fresh(value)
    ensures value[..] == FloatText(f)
  {
    value := new char[TextLength(f)];
    if f.negative { value[0] := '-'; }
    var pos, numCharsToProcess := PrintDigits(f, value);
    while numCharsToProcess > 0
      invariant Sign(f) - 1 <= pos && numCharsToProcess == pos + 1 - Sign(f)
      invariant PrintedDownTo(f, value, pos, 0)
    {
      value[pos] := '0';
      DropStep(f.digits, DigitsRightOf(f, pos));
      numCharsToProcess := numCharsToProcess - 1;
      pos := pos - 1;
    }
    value[value.Length - 1 - f.decimalPos] := '.';
    forall i | 0 <= i < value.Length ensures value[i] == FloatText(f)[i] { FloatTextAt(f, i); }
  }
}
