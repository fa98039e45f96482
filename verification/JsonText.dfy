/** NUL-terminated text, as the parser and the minifier of cjson.h read it. A char stands for a byte. */
module JsonText {
  const NUL: char := '\0'

  /** The character at i; the text is followed by its terminator. */
  function At(s: string, i: nat): char {
    if i < |s| then s[i] else NUL
  }

  /** The text w stands at position i of s. */
  predicate Here(s: string, i: nat, w: string) {
    i + |w| <= |s| && forall k :: 0 <= k < |w| ==> s[i + k] == w[k]
  }

  lemma HereSplit(s: string, i: nat, a: string, b: string)
    ensures Here(s, i, a + b) <==> Here(s, i, a) && Here(s, i + |a|, b)
  {
    if Here(s, i, a + b) {
      forall k | 0 <= k < |a|
        ensures s[i + k] == a[k]
      {
        assert (a + b)[k] == a[k];
      }
      forall k | 0 <= k < |b|
        ensures s[i + |a| + k] == b[k]
      {
        assert (a + b)[|a| + k] == b[k];
      }
    }
  }

  lemma HereAt(s: string, i: nat, w: string, k: nat)
    requires Here(s, i, w) && k < |w|
    ensures At(s, i + k) == w[k]
  {
    assert s[i + k] == w[k];
  }

  predicate Space(c: char) {
    NUL < c <= ' '
  }

  predicate Digit(c: char) {
    '0' <= c <= '9'
  }

  /** Where skip stops: the first position from i that holds no white space. */
  function Skip(s: string, i: nat): (j: nat)
    ensures i <= j && !Space(At(s, j))
    ensures i <= |s| ==> j <= |s|
    ensures forall k :: i <= k < j ==> Space(At(s, k))
    decreases |s| - i
  {
    if i < |s| && Space(s[i]) then Skip(s, i + 1) else i
  }

  method SkipSpace(s: string, start: nat) returns (i: nat)
    ensures i == Skip(s, start)
  {
    i := start;
    while i < |s| && NUL < s[i] && s[i] as int <= 32
      invariant Skip(s, start) == Skip(s, i)
      decreases |s| - i
    {
      i := i + 1;
    }
  }

  /** White space in front of a position is skipped. */
  lemma {:induction false} SkipTo(s: string, i: nat, j: nat)
    requires i <= j && !Space(At(s, j)) && forall k: nat :: i <= k < j ==> Space(At(s, k))
    ensures Skip(s, i) == j
    decreases j - i
  {
    if i < j {
      SkipTo(s, i + 1, j);
    }
  }
}
