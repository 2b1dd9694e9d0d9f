/** The few facts about Unicode characters that the algorithms rely on. */
module Text {

  /** `str.isalnum`, `str.isspace` and "category starts with M", as abstract predicates on characters. */
  datatype CharTable = CharTable(isAlnum: char -> bool, isSpace: char -> bool, isMark: char -> bool) {
    /** No character is both a letter or digit and whitespace. */
    ghost predicate Lawful() {
      forall c: char :: !(isAlnum(c) && isSpace(c))
    }
  }
}
