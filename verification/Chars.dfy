/** Character classes shared by the text scanners. */
module Chars {

  /** The code points with the Unicode White_Space property. */
  predicate IsWhiteSpace(code: int) {
    || 0x9 <= code <= 0xD || 0x2000 <= code <= 0x200A
    || code in {0x20, 0x85, 0xA0, 0x1680, 0x2028, 0x2029, 0x202F, 0x205F, 0x3000}
  }

  /** `char::is_whitespace`. */
  predicate IsWhitespace(c: char) {
    IsWhiteSpace(c as int)
  }

  /** `s.trim().is_empty()`. */
  predicate IsBlankText(s: string) {
    forall i :: 0 <= i < |s| ==> IsWhitespace(s[i])
  }

  lemma Regroup(a: string, b: string, c: string)
    ensures a + (b + c) == (a + b) + c
  {
  }
}
