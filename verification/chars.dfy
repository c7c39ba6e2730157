/**
  Character classification and case mapping, standing in for Qt's QChar
  predicates (isLetter, isUpper, isLower, isDigit, isSpace, isPunct,
  isLetterOrNumber, toUpper, toLower). The model covers ASCII and the Cyrillic
  block U+0400..U+045F together with Ґ/ґ (U+0490/U+0491), which is every
  character the identity logic of the tool is fed in practice; every other
  character is treated as neither a letter nor a digit and is left unchanged
  by the case mappings.
 */
module Chars {

  predicate IsAsciiUpper(c: char) { 'A' <= c <= 'Z' }

  predicate IsAsciiLower(c: char) { 'a' <= c <= 'z' }

  predicate IsAsciiLetter(c: char) { IsAsciiUpper(c) || IsAsciiLower(c) }

  predicate IsAsciiDigit(c: char) { '0' <= c <= '9' }

  predicate IsAsciiAlnum(c: char) { IsAsciiLetter(c) || IsAsciiDigit(c) }

  predicate IsCyrillicUpper(c: char) {
    '\U{0400}' <= c <= '\U{042F}' || c == '\U{0490}'
  }

  predicate IsCyrillicLower(c: char) {
    '\U{0430}' <= c <= '\U{045F}' || c == '\U{0491}'
  }

  /** QChar::isUpper */
  predicate IsUpper(c: char) { IsAsciiUpper(c) || IsCyrillicUpper(c) }

  /** QChar::isLower */
  predicate IsLower(c: char) { IsAsciiLower(c) || IsCyrillicLower(c) }

  /** QChar::isLetter */
  predicate IsLetter(c: char) { IsUpper(c) || IsLower(c) }

  /** QChar::isDigit */
  predicate IsDigit(c: char) { IsAsciiDigit(c) }

  /** QChar::isLetterOrNumber */
  predicate IsLetterOrNumber(c: char) { IsLetter(c) || IsDigit(c) }

  /** QChar::isSpace: the ASCII controls TAB..CR, the space, NEL and NBSP. */
  predicate IsSpace(c: char) {
    c == ' ' || '\t' <= c <= '\r' || c == '\U{0085}' || c == '\U{00A0}'
  }

  /** QChar::isPunct restricted to ASCII: the characters of the Unicode
      punctuation categories (P*); `$ + < = > ^ ` | ~` are symbols (S*). */
  predicate IsPunct(c: char) {
    c in "!\"#%&'()*,-./:;?@[\\]_{}"
  }

  /** QChar::toUpper */
  function ToUpper(c: char): (r: char)
    ensures IsLower(c) ==> IsUpper(r)
    ensures !IsLower(c) ==> r == c
    ensures IsAsciiLetter(c) <==> IsAsciiLetter(r)
  {
    if IsAsciiLower(c) then (c as int - 32) as char
    else if '\U{0430}' <= c <= '\U{044F}' then (c as int - 32) as char
    else if '\U{0450}' <= c <= '\U{045F}' then (c as int - 80) as char
    else if c == '\U{0491}' then '\U{0490}'
    else c
  }

  /** QChar::toLower */
  function ToLower(c: char): (r: char)
    ensures IsUpper(c) ==> IsLower(r)
    ensures !IsUpper(c) ==> r == c
    ensures IsAsciiLetter(c) <==> IsAsciiLetter(r)
  {
    if IsAsciiUpper(c) then (c as int + 32) as char
    else if '\U{0410}' <= c <= '\U{042F}' then (c as int + 32) as char
    else if '\U{0400}' <= c <= '\U{040F}' then (c as int + 80) as char
    else if c == '\U{0490}' then '\U{0491}'
    else c
  }

  /** Case mapping is a bijection between the two cases: mapping a letter to
      the other case and back gives the letter again, and both mappings are
      idempotent. Case mapping never turns a letter into a non-letter nor
      touches whitespace. */
  lemma CaseMappingFacts(c: char)
    ensures IsLower(c) ==> ToLower(ToUpper(c)) == c
    ensures IsUpper(c) ==> ToUpper(ToLower(c)) == c
    ensures ToUpper(ToUpper(c)) == ToUpper(c)
    ensures ToLower(ToLower(c)) == ToLower(c)
    ensures ToLower(ToUpper(c)) == ToLower(c)
    ensures IsLetter(ToUpper(c)) == IsLetter(c) && IsLetter(ToLower(c)) == IsLetter(c)
    ensures IsLetterOrNumber(ToUpper(c)) == IsLetterOrNumber(c)
    ensures IsLetterOrNumber(ToLower(c)) == IsLetterOrNumber(c)
    ensures IsSpace(ToUpper(c)) == IsSpace(c) && IsSpace(ToLower(c)) == IsSpace(c)
  {
  }
}
