/** Strings that agree up to the case of ASCII letters. */
module AsciiCase {
  /** The same character, or a letter and its other case: their codes are 32 apart. */
  predicate SameButForCase(c: char, d: char) {
    || c == d
    || ('A' <= c <= 'Z' && d as int == c as int + 32)
    || ('A' <= d <= 'Z' && c as int == d as int + 32)
  }

  predicate AgreeButForCase(s: string, t: string) {
    |s| == |t| && forall i :: 0 <= i < |s| ==> SameButForCase(s[i], t[i])
  }
}
