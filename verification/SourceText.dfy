/** Text as JavaScript holds it, a sequence of UTF-16 code units, and the character classes the
    i18n gate's scanners tell apart. */
module SourceText {
  import opened Options

  type Unit = u: int | 0 <= u < 0x1_0000
  type Text = seq<Unit>

  const NEWLINE: Unit := 0x0A
  const SPACE: Unit := 0x20
  const QUOTE: Unit := 0x22
  const DOLLAR: Unit := 0x24
  const APOSTROPHE: Unit := 0x27
  const OPEN_PAREN: Unit := 0x28
  const CLOSE_PAREN: Unit := 0x29
  const STAR: Unit := 0x2A
  const COMMA: Unit := 0x2C
  const DOT: Unit := 0x2E
  const SLASH: Unit := 0x2F
  const COLON: Unit := 0x3A
  const LESS: Unit := 0x3C
  const EQUALS: Unit := 0x3D
  const GREATER: Unit := 0x3E
  const OPEN_BRACKET: Unit := 0x5B
  const BACKSLASH: Unit := 0x5C
  const CLOSE_BRACKET: Unit := 0x5D
  const UNDERSCORE: Unit := 0x5F
  const BACKTICK: Unit := 0x60
  const OPEN_BRACE: Unit := 0x7B
  const CLOSE_BRACE: Unit := 0x7D

  /** `\s` */
  predicate IsSpace(u: Unit) {
    || 0x09 <= u <= 0x0D || u == 0x20 || u == 0xA0 || u == 0x1680 || 0x2000 <= u <= 0x200A
    || u == 0x2028 || u == 0x2029 || u == 0x202F || u == 0x205F || u == 0x3000 || u == 0xFEFF
  }

  predicate IsDigit(u: Unit) {
    0x30 <= u <= 0x39
  }

  predicate IsLetter(u: Unit) {
    0x41 <= u <= 0x5A || 0x61 <= u <= 0x7A
  }

  /** `\w` */
  predicate IsWord(u: Unit) {
    IsLetter(u) || IsDigit(u) || u == UNDERSCORE
  }

  predicate IsIdentStart(u: Unit) {
    IsLetter(u) || u == UNDERSCORE || u == DOLLAR || u >= 0x80
  }

  predicate IsIdentPart(u: Unit) {
    IsWord(u) || u == DOLLAR || u >= 0x80
  }

  predicate IsNumberPart(u: Unit) {
    IsWord(u) || u == DOT
  }

  // ----- The same as characters

  /** The units of a text of the basic plane. */
  function Units(s: string): (t: Text)
    requires forall k :: 0 <= k < |s| ==> s[k] as int < 0x1_0000
    ensures |t| == |s| && forall k :: 0 <= k < |s| ==> t[k] == s[k] as int
  {
    seq(|s|, k requires 0 <= k < |s| => s[k] as int)
  }

  lemma UnitsAsWritten()
    ensures Units("\n \"$'()*,./:<=>[\\]_`{}") ==
      [NEWLINE, SPACE, QUOTE, DOLLAR, APOSTROPHE, OPEN_PAREN, CLOSE_PAREN, STAR, COMMA, DOT, SLASH, COLON, LESS, EQUALS,
       GREATER, OPEN_BRACKET, BACKSLASH, CLOSE_BRACKET, UNDERSCORE, BACKTICK, OPEN_BRACE, CLOSE_BRACE]
  {
  }

  /** The classes by the characters in them: `\s` as ECMAScript lists it, and `[0-9]`, `[A-Za-z]`, `\w`, what an
      identifier begins and goes on with, and what a number does. */
  lemma ClassesAsWritten(u: Unit)
    ensures IsSpace(u) <==>
      u in {0x09, 0x0A, 0x0B, 0x0C, 0x0D, 0x20, 0xA0, 0x1680, 0x2000, 0x2001, 0x2002, 0x2003, 0x2004, 0x2005, 0x2006,
            0x2007, 0x2008, 0x2009, 0x200A, 0x2028, 0x2029, 0x202F, 0x205F, 0x3000, 0xFEFF}
    ensures IsDigit(u) <==> '0' as int <= u <= '9' as int
    ensures IsLetter(u) <==> 'A' as int <= u <= 'Z' as int || 'a' as int <= u <= 'z' as int
    ensures IsWord(u) <==> IsLetter(u) || IsDigit(u) || u == '_' as int
    ensures IsIdentStart(u) <==> u >= 0x80 || u == '$' as int || (IsWord(u) && !IsDigit(u))
    ensures IsIdentPart(u) <==> IsIdentStart(u) || IsDigit(u)
    ensures IsNumberPart(u) <==> IsWord(u) || u == '.' as int
  {
  }
}
