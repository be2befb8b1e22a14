/** Integer variables: canonical decimal texts of signed 64-bit values. */
module IntegerVar {
  import opened Wrappers
  import opened Words
  import opened Decimal

  /** std::to_string on a non-negative value. */
  function NatText(n: nat): (s: string)
    ensures s != [] && AllDigits(s)
  {
    if n < 10 then [DigitChar(n)] else NatText(n / 10) + [DigitChar(n % 10)]
  }

  /** std::to_string. */
  function IntText(n: int): (s: string)
    ensures s != []
  {
    if n < 0 then "-" + NatText(-n) else NatText(n)
  }

  /** std::from_chars over the whole string: an optional minus sign and digits, within int64. */
  function FromChars(s: string): (r: Option<int>)
    ensures r.Some? ==> IsInt64(r.value)
  {
    if s != [] && s[0] == '-' then
      if |s| > 1 && AllDigits(s[1..]) && IsInt64(0 - Value(s[1..])) then Some(0 - Value(s[1..])) else None
    else if s != [] && AllDigits(s) && IsInt64(Value(s)) then Some(Value(s))
    else None
  }

  /** Whether a string starts as an integer with no zero-padding, no positive sign and no "-0". */
  predicate StartsCanonically(s: string) {
    && s != []
    && if s[0] == '-' then |s| >= 2 && '1' <= s[1] <= '9'
       else '0' <= s[0] <= '9' && (|s| > 1 ==> s[0] != '0')
  }

  function ConvertStringToIntegerVar(s: string): Option<int> {
    if StartsCanonically(s) then FromChars(s) else None
  }

  lemma {:induction false} ValueOfNatText(n: nat)
    ensures Value(NatText(n)) == n
    ensures n > 0 ==> NatText(n)[0] != '0'
    ensures n == 0 ==> NatText(n) == "0"
  {
    var t := NatText(n);
    if n < 10 {
      assert t[..0] == "";
    } else {
      ValueOfNatText(n / 10);
      assert t[..|t| - 1] == NatText(n / 10);
    }
  }

  /** A digit string without a leading zero is the text of its own value. */
  lemma {:induction false} NatTextOfValue(s: string)
    requires s != [] && AllDigits(s) && (|s| > 1 ==> s[0] != '0')
    ensures NatText(Value(s)) == s
    ensures s[0] != '0' ==> Value(s) > 0
    decreases |s|
  {
    var front := s[..|s| - 1];
    assert s == front + [s[|s| - 1]];
    if front == [] {
      assert Value(front) == 0;
    } else {
      NatTextOfValue(front);
      assert Value(s) / 10 == Value(front) && Value(s) % 10 == DigitValue(s[|s| - 1]);
    }
  }

  lemma ConvertOfIntText(n: int)
    requires IsInt64(n)
    ensures ConvertStringToIntegerVar(IntText(n)) == Some(n)
  {
    var s := IntText(n);
    if n < 0 {
      ValueOfNatText(-n);
      assert s[1..] == NatText(-n) && s[1] == NatText(-n)[0];
    } else {
      ValueOfNatText(n);
      assert IsDigit(s[0]);
      if n < 10 { assert |s| == 1; }
    }
  }

  lemma MinusFirst(s: string)
    requires s != "" && s[0] == '-'
    ensures s == "-" + s[1..]
  {
  }

  lemma IntTextOfConvert(s: string)
    requires ConvertStringToIntegerVar(s).Some?
    ensures IntText(ConvertStringToIntegerVar(s).value) == s
  {
    if s[0] == '-' {
      NatTextOfValue(s[1..]);
      MinusFirst(s);
    } else {
      NatTextOfValue(s);
    }
  }

  /** The converter accepts exactly the texts std::to_string prints for 64-bit integers, and gives
      back the integer printed. */
  lemma ConvertInvertsIntText(s: string, n: int)
    ensures ConvertStringToIntegerVar(s) == Some(n) <==> IsInt64(n) && s == IntText(n)
  {
    if IsInt64(n) { ConvertOfIntText(n); }
    if ConvertStringToIntegerVar(s).Some? { IntTextOfConvert(s); }
  }
}
