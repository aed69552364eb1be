/**
 * Character classes used by the formalizer's regular expressions, and
 * ASCII case mapping. Despite the module's name, `\s` is not ASCII-only.
 *
 * The rule patterns are ASCII, and JavaScript's non-Unicode `i` flag never
 * folds a non-ASCII character onto an ASCII one, so case folding only has
 * to treat the ASCII letters. `\w` is ASCII-only; `\s` (and
 * `String.prototype.trim`) use the full set of ECMAScript white-space and
 * line-terminator code points.
 */
module Ascii {

  predicate IsUpperLetter(c: char) { 'A' <= c <= 'Z' }

  predicate IsLowerLetter(c: char) { 'a' <= c <= 'z' }

  /** `String.prototype.toUpperCase` on one character of the ASCII range. */
  function ToUpper(c: char): (u: char)
    ensures IsLowerLetter(c) ==> IsUpperLetter(u) && u as int == c as int - 32
    ensures !IsLowerLetter(c) ==> u == c
    ensures IsUpperLetter(u) <==> IsUpperLetter(c) || IsLowerLetter(c)
  {
    if IsLowerLetter(c) then (c as int - 32) as char else c
  }

  /** The canonical form used for case-insensitive comparison. */
  function ToLower(c: char): (l: char)
    ensures IsUpperLetter(c) ==> IsLowerLetter(l) && l as int == c as int + 32
    ensures !IsUpperLetter(c) ==> l == c
    ensures IsLowerLetter(l) <==> IsUpperLetter(c) || IsLowerLetter(c)
  {
    if IsUpperLetter(c) then (c as int + 32) as char else c
  }

  /** `\w`: ASCII letters, digits and the underscore. */
  predicate IsWordChar(c: char) {
    IsUpperLetter(c) || IsLowerLetter(c) || ('0' <= c <= '9') || c == '_'
  }

  /** `\s`: ECMAScript WhiteSpace and LineTerminator code points. */
  predicate IsSpace(c: char) {
    c == '\t' || c == '\n' || c == '\U{B}' || c == '\U{C}' || c == '\r' || c == ' '
    || c == '\U{A0}' || c == '\U{1680}' || ('\U{2000}' <= c <= '\U{200A}')
    || c == '\U{2028}' || c == '\U{2029}' || c == '\U{202F}' || c == '\U{205F}'
    || c == '\U{3000}' || c == '\U{FEFF}'
  }

  /** The character class `[.!?]` that ends a sentence. */
  predicate IsSentenceEnd(c: char) { c == '.' || c == '!' || c == '?' }

  /** Upper-casing keeps a character's class and its case-folded form. */
  lemma ToUpperKeepsClass(c: char)
    ensures IsWordChar(ToUpper(c)) == IsWordChar(c)
    ensures IsSpace(ToUpper(c)) == IsSpace(c)
    ensures IsSentenceEnd(ToUpper(c)) == IsSentenceEnd(c)
    ensures ToLower(ToUpper(c)) == ToLower(c)
    ensures ToUpper(ToUpper(c)) == ToUpper(c)
  {
  }
}
