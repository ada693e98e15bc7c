/** The character classes of the lexers and of Python's `str.isspace`, one by one. */
module Alphabets {
  import opened Text

  const SPACES := {
    '\t', '\n', '\U{b}', '\U{c}', '\r', '\U{1c}', '\U{1d}', '\U{1e}', '\U{1f}', ' ', '\U{85}', '\U{a0}',
    '\U{1680}', '\U{2000}', '\U{2001}', '\U{2002}', '\U{2003}', '\U{2004}', '\U{2005}', '\U{2006}', '\U{2007}', '\U{2008}', '\U{2009}', '\U{200a}',
    '\U{2028}', '\U{2029}', '\U{202f}', '\U{205f}', '\U{3000}'
  }

  lemma SpacesListed(c: char)
    ensures IsSpace(c) <==> c in SPACES
  {
  }

  const DIGITS := {'0', '1', '2', '3', '4', '5', '6', '7', '8', '9'}

  const CAPITALS := {
    'A', 'B', 'C', 'D', 'E', 'F', 'G', 'H', 'I', 'J', 'K', 'L', 'M',
    'N', 'O', 'P', 'Q', 'R', 'S', 'T', 'U', 'V', 'W', 'X', 'Y', 'Z'
  }

  const SMALL_LETTERS := {
    'a', 'b', 'c', 'd', 'e', 'f', 'g', 'h', 'i', 'j', 'k', 'l', 'm',
    'n', 'o', 'p', 'q', 'r', 's', 't', 'u', 'v', 'w', 'x', 'y', 'z'
  }

  const LETTERS := CAPITALS + SMALL_LETTERS + {'_'}

  lemma DigitsListed(c: char)
    ensures '0' <= c <= '9' <==> c in DIGITS
  {
  }

  lemma CapitalsListed(c: char)
    ensures 'A' <= c <= 'Z' <==> c in CAPITALS
  {
  }

  lemma SmallLettersListed(c: char)
    ensures 'a' <= c <= 'z' <==> c in SMALL_LETTERS
  {
  }

  lemma LettersListed(c: char)
    ensures 'A' <= c <= 'Z' || 'a' <= c <= 'z' || c == '_' <==> c in LETTERS
  {
    CapitalsListed(c);
    SmallLettersListed(c);
  }
}
