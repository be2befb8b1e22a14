/** Finding variable tokens in a message (ir/parsing.cpp). */
module Parsing {
  import opened Decimal

  predicate IsAlphabet(c: char) {
    'a' <= c <= 'z' || 'A' <= c <= 'Z'
  }

  /** Everything but "+-.0-9A-Z\_a-z" delimits. */
  predicate IsDelim(c: char) {
    !(c == '+' || '-' <= c <= '.' || '0' <= c <= '9' || 'A' <= c <= 'Z' || c == '\\' || c == '_' || 'a' <= c <= 'z')
  }

  predicate IsHexDigit(c: char) {
    'a' <= c <= 'f' || 'A' <= c <= 'F' || '0' <= c <= '9'
  }

  predicate CouldBeMultiDigitHexValue(s: string) {
    |s| >= 2 && forall i :: 0 <= i < |s| ==> IsHexDigit(s[i])
  }

  /** s[b..e] is a maximal run of non-delimiters, looking no further left than from. */
  predicate IsToken(s: string, from: nat, b: nat, e: nat) {
    && from <= b < e <= |s|
    && (forall i :: b <= i < e ==> !IsDelim(s[i]))
    && (b == from || IsDelim(s[b - 1]))
    && (e == |s| || IsDelim(s[e]))
  }

  /** The token holds a digit, or follows '=' and holds a letter, or reads as multi-digit hex. */
  predicate MatchesVariableSchema(s: string, b: nat, e: nat)
    requires b <= e <= |s|
  {
    || (exists i :: b <= i < e && IsDigit(s[i]))
    || (0 < b && s[b - 1] == '=' && exists i :: b <= i < e && IsAlphabet(s[i]))
    || CouldBeMultiDigitHexValue(s[b..e])
  }

  ghost predicate IsVariable(s: string, from: nat, b: nat, e: nat) {
    IsToken(s, from, b, e) && MatchesVariableSchema(s, b, e)
  }

  /** No variable token of s, read from index from, begins before limit. */
  ghost predicate NoVariableBefore(s: string, from: nat, limit: nat) {
    forall b: nat, e: nat :: b < limit ==> !IsVariable(s, from, b, e)
  }

  /** The first index at or after from that holds no delimiter, or the end. */
  method SkipDelimiters(s: string, from: nat) returns (begin: nat)
    requires from <= |s|
    ensures from <= begin <= |s|
    ensures forall i :: from <= i < begin ==> IsDelim(s[i])
    ensures begin < |s| ==> !IsDelim(s[begin])
  {
    begin := from;
    while begin < |s| && IsDelim(s[begin])
      invariant from <= begin <= |s|
      invariant forall i :: from <= i < begin ==> IsDelim(s[i])
    {
      begin := begin + 1;
    }
  }

  /** The end of the token at begin, and what kinds of characters it holds. */
  method ScanToken(s: string, begin: nat) returns (end: nat, hasDigit: bool, hasAlphabet: bool)
    requires begin < |s| && !IsDelim(s[begin])
    ensures begin < end <= |s|
    ensures forall i :: begin <= i < end ==> !IsDelim(s[i])
    ensures end == |s| || IsDelim(s[end])
    ensures hasDigit <==> exists i :: begin <= i < end && IsDigit(s[i])
    ensures hasAlphabet <==> exists i :: begin <= i < end && IsAlphabet(s[i])
  {
    end, hasDigit, hasAlphabet := begin, false, false;
    while end < |s|
      invariant begin <= end <= |s|
      invariant forall i :: begin <= i < end ==> !IsDelim(s[i])
      invariant hasDigit <==> exists i :: begin <= i < end && IsDigit(s[i])
      invariant hasAlphabet <==> exists i :: begin <= i < end && IsAlphabet(s[i])
    {
      var c := s[end];
      if IsDigit(c) {
        hasDigit := true;
      } else if IsAlphabet(c) {
        hasAlphabet := true;
      } else if IsDelim(c) {
        break;
      }
      end := end + 1;
    }
  }

  lemma TokenEndUnique(s: string, from: nat, b: nat, e: nat, e': nat)
    requires IsToken(s, from, b, e) && IsToken(s, from, b, e')
    ensures e == e'
  {
    assert e < |s| ==> IsDelim(s[e]);
    assert e' < |s| ==> IsDelim(s[e']);
  }

  /** Within s[from..] no token begins at a delimiter or inside the token s[b..e]. */
  lemma NoVariableInside(s: string, from: nat, last: nat, b: nat, e: nat)
    requires from <= last <= b <= e <= |s|
    requires last == from || last == |s| || IsDelim(s[last])
    requires NoVariableBefore(s, from, last)
    requires forall i :: last <= i < b ==> IsDelim(s[i])
    requires b < e ==> IsToken(s, from, b, e) && !MatchesVariableSchema(s, b, e)
    ensures NoVariableBefore(s, from, e)
  {
    forall b': nat, e': nat | b' < e ensures !IsVariable(s, from, b', e') {
      if b' == b && b < e {
        if IsToken(s, from, b', e') { TokenEndUnique(s, from, b, e, e'); }
      } else if b < b' {
        assert !IsDelim(s[b' - 1]);
      } else if last <= b' {
        assert b' < b ==> IsDelim(s[b']);
      }
    }
  }

  /** The bounds of the first variable token at or after lastEnd. */
  method GetBoundsOfNextVar(s: string, lastEnd: nat) returns (found: bool, begin: nat, end: nat)
    ensures found ==> lastEnd <= begin && IsVariable(s, lastEnd, begin, end)
    ensures found ==> NoVariableBefore(s, lastEnd, begin)
    ensures !found ==> NoVariableBefore(s, lastEnd, |s|)
  {
    begin, end := lastEnd, lastEnd;
    if |s| <= lastEnd { return false, begin, end; }
    while true
      invariant lastEnd <= end <= |s|
      invariant end == lastEnd || end == |s| || IsDelim(s[end])
      invariant NoVariableBefore(s, lastEnd, end)
      decreases |s| - end
    {
      ghost var last := end;
      begin := SkipDelimiters(s, end);
      if begin == |s| {
        NoVariableInside(s, lastEnd, last, begin, begin);
        return false, begin, end;
      }
      var hasDigit, hasAlphabet;
      end, hasDigit, hasAlphabet := ScanToken(s, begin);
      if hasDigit || (0 < begin && s[begin - 1] == '=' && hasAlphabet) || CouldBeMultiDigitHexValue(s[begin..end]) {
        NoVariableInside(s, lastEnd, last, begin, begin);
        return true, begin, end;
      }
      NoVariableInside(s, lastEnd, last, begin, end);
    }
  }
}
