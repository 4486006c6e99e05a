/** Character classes of JavaScript regular expressions (without the `u` flag)
    and of the ECMAScript string-to-number grammar. */
module Chars {

  /** `\w`: `[A-Za-z0-9_]`. */
  predicate IsWordChar(c: char) {
    ('a' <= c <= 'z') || ('A' <= c <= 'Z') || ('0' <= c <= '9') || c == '_'
  }

  /** `\d`. */
  predicate IsDecimalDigit(c: char) {
    '0' <= c <= '9'
  }

  /** The four LineTerminator code points: LF, CR, LINE SEPARATOR and
      PARAGRAPH SEPARATOR. */
  const LineTerminators: set<char> := {'\n', '\r', '\U{2028}', '\U{2029}'}

  /** One of the LineTerminator code points. */
  predicate IsLineTerminator(c: char) {
    c in LineTerminators
  }

  /** `\s`, which is also the StrWhiteSpaceChar set `parseInt` skips: the
      WhiteSpace code points (tab, vertical tab, form feed, space, no-break
      space, byte order mark and the space separators of Unicode category Zs)
      and the LineTerminator code points. */
  predicate IsSpace(c: char) {
    || c == '\t' || c == '\U{000B}' || c == '\U{000C}' || c == ' '
    || c == '\U{00A0}' || c == '\U{FEFF}' || c == '\U{1680}'
    || ('\U{2000}' <= c <= '\U{200A}')
    || c == '\U{202F}' || c == '\U{205F}' || c == '\U{3000}'
    || IsLineTerminator(c)
  }

  /** A string made of `\w` characters only. */
  predicate AllWord(s: string) {
    forall i :: 0 <= i < |s| ==> IsWordChar(s[i])
  }

  /** A string made of decimal digits only. */
  predicate AllDecimalDigits(s: string) {
    forall i :: 0 <= i < |s| ==> IsDecimalDigit(s[i])
  }

  /** A string with no line terminator in it. */
  predicate NoLineTerminator(s: string) {
    forall i :: 0 <= i < |s| ==> !IsLineTerminator(s[i])
  }

  /** A string made of `\s` characters only. */
  predicate AllSpace(s: string) {
    forall i :: 0 <= i < |s| ==> IsSpace(s[i])
  }
}
