/** The letters of ASCII in both cases. */
module AsciiCase {
  /** Each of the two characters is the n-th letter, in one case or the other. */
  predicate OneLetter(a: int, b: int, n: nat) {
    n < 26 && a in {65 + n, 97 + n} && b in {65 + n, 97 + n}
  }

  ghost predicate SameLetter(a: int, b: int) {
    exists n: nat :: OneLetter(a, b, n)
  }
}
