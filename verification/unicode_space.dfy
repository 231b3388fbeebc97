/** The two notions of white space the solvers rely on. */
module UnicodeSpace {

  /** Go's unicode.IsSpace: what strings.TrimSpace and strings.Fields split on.
      Below U+0100 it is '\t', '\n', '\v', '\f', '\r', ' ', U+0085 and U+00A0;
      above, the characters with the White_Space property. */
  predicate GoIsSpace(c: char) {
    c == ' ' || c == '\t' || c == '\n' || c == '\r' || c == '\U{000B}' || c == '\U{000C}' ||
    c == '\U{0085}' || c == '\U{00A0}' || c == '\U{1680}' ||
    ('\U{2000}' <= c <= '\U{200A}') ||
    c == '\U{2028}' || c == '\U{2029}' || c == '\U{202F}' || c == '\U{205F}' || c == '\U{3000}'
  }

  /** Python's str.isspace: what str.strip() removes.  It is Go's set and the
      four separators U+001C to U+001F. */
  predicate PyIsSpace(c: char) {
    GoIsSpace(c) || ('\U{001C}' <= c <= '\U{001F}')
  }
}
