/** Blanks in text. */
module Texts {
  predicate Blank(c: char) {
    c in {' ', '\t', '\n', '\r'}
  }

  predicate AllBlank(s: string) {
    forall c | c in s :: Blank(c)
  }
}
