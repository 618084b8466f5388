/** ASCII character classes shared by the shape patterns, the numeral reader and lower-casing. */
module Ascii {

  /** `\d` in Go's regexp syntax and a base-10 digit for strconv: ASCII only. */
  predicate IsDigit(c: char) {
    '0' <= c <= '9'
  }

  /** The regexp class `[0-9a-fA-F]`. */
  predicate IsHexDigit(c: char) {
    IsDigit(c) || 'a' <= c <= 'f' || 'A' <= c <= 'F'
  }

  predicate IsUpper(c: char) {
    'A' <= c <= 'Z'
  }

  /** unicode.ToLower restricted to ASCII: upper-case letters map to lower-case, every other character is kept. */
  function LowerChar(c: char): (l: char)
    ensures IsUpper(c) ==> l as int == c as int + 32
    ensures !IsUpper(c) ==> l == c
  {
    if IsUpper(c) then (c as int + 32) as char else c
  }

  /** Neither a letter: a character outside `a`-`z` and `A`-`Z`. */
  predicate IsNonLetter(c: char) {
    !('a' <= c <= 'z') && !IsUpper(c)
  }

  /** Lower-casing keeps a non-letter, and maps nothing else to it. */
  lemma LowerCharFixesNonLetters(c: char)
    requires IsNonLetter(c)
    ensures LowerChar(c) == c
    ensures forall d: char :: LowerChar(d) == c ==> d == c
  {
  }
}
