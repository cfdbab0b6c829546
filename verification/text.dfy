/** Substring and digit tests shared by the Java and the Python string models. */
module Text {
  /** `pat` occurs in `s` starting at index `i`. */
  predicate OccursAt(s: string, pat: string, i: int) {
    0 <= i && i + |pat| <= |s| && s[i..i + |pat|] == pat
  }

  predicate Contains(s: string, pat: string) {
    exists i | 0 <= i <= |s| :: OccursAt(s, pat, i)
  }

  predicate StartsWith(s: string, prefix: string) {
    |prefix| <= |s| && s[..|prefix|] == prefix
  }

  predicate EndsWith(s: string, suffix: string) {
    |suffix| <= |s| && s[|s| - |suffix|..] == suffix
  }

  /**
   * An ASCII decimal digit. `Integer.parseInt` and Python's `\d` also accept
   * other Unicode decimal digits, which neither model counts.
   */
  predicate IsDigit(c: char) {
    '0' <= c <= '9'
  }
}
