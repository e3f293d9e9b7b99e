/** Character classes of the original's regular expressions and string methods. */
module Chars {

  /** str.isspace, which is also what "\s" and str.strip use. */
  predicate IsSpace(c: char) {
    var n := c as int;
    9 <= n <= 13 || 28 <= n <= 32 || n == 0x85 || n == 0xA0 || n == 0x1680 ||
    0x2000 <= n <= 0x200A || n == 0x2028 || n == 0x2029 || n == 0x202F || n == 0x205F ||
    n == 0x3000
  }

  predicate IsDigit(c: char) { '0' <= c <= '9' }

  predicate IsUpper(c: char) { 'A' <= c <= 'Z' }

  predicate IsLower(c: char) { 'a' <= c <= 'z' }

  /** The white space of the Unicode standard, together with the four separators of ASCII. */
  const WHITESPACE :=
    "\U{9}\U{A}\U{B}\U{C}\U{D}" + "\U{1C}\U{1D}\U{1E}\U{1F} " + "\U{85}\U{A0}\U{1680}" +
    "\U{2000}\U{2001}\U{2002}\U{2003}\U{2004}" + "\U{2005}\U{2006}\U{2007}\U{2008}\U{2009}\U{200A}" +
    "\U{2028}\U{2029}\U{202F}\U{205F}\U{3000}"

  lemma SpacesAreListed(c: char)
    ensures IsSpace(c) <==> c in WHITESPACE
  {
    var n := c as int;
    if 9 <= n <= 13 { assert WHITESPACE[n - 9] == c; }
    if 28 <= n <= 32 { assert WHITESPACE[n - 23] == c; }
    if n == 0x85 { assert WHITESPACE[10] == c; }
    if n == 0xA0 { assert WHITESPACE[11] == c; }
    if n == 0x1680 { assert WHITESPACE[12] == c; }
    if 0x2000 <= n <= 0x200A { assert WHITESPACE[n - 0x2000 + 13] == c; }
    if n == 0x2028 || n == 0x2029 { assert WHITESPACE[n - 0x2028 + 24] == c; }
    if n == 0x202F { assert WHITESPACE[26] == c; }
    if n == 0x205F { assert WHITESPACE[27] == c; }
    if n == 0x3000 { assert WHITESPACE[28] == c; }
  }
}
