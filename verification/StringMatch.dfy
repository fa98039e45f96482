/** Horspool search of stringmatch.c, with and without regard to case. */
module StringMatch {
  import opened AsciiCase

  /** A signed char. */
  type Char = c: int | -128 <= c < 128

  const CHARSET_SIZE: nat := 256

  /** The place of a character in the shift table, as an unsigned byte. */
  function Byte(c: Char): (b: nat)
    ensures b < CHARSET_SIZE
  {
    if c < 0 then c + 256 else c
  }

  function Lower(c: Char): Char {
    if 65 <= c <= 90 then c + 32 else c
  }

  function Upper(c: Char): Char {
    if 97 <= c <= 122 then c - 32 else c
  }

  /** Two characters have one lower case exactly if they are the same, or the same letter in both cases; and upper and
      lower case are such. */
  lemma CasesAlike(a: Char, b: Char)
    ensures Lower(a) == Lower(b) <==> a == b || SameLetter(a, b)
    ensures Lower(Lower(a)) == Lower(Upper(a)) == Lower(a)
    ensures !(65 <= Lower(a) <= 90) && !(97 <= Upper(a) <= 122)
  {
    if a != b && Lower(a) == Lower(b) {
      assert OneLetter(a, b, Lower(a) - 97);
    }
  }

  /** The needle at position i of the haystack. */
  ghost predicate Occurs(needle: seq<Char>, hay: seq<Char>, i: nat) {
    i + |needle| <= |hay| && forall k :: 0 <= k < |needle| ==> hay[i + k] == needle[k]
  }

  /** The same, with letters of either case taken for each other. */
  ghost predicate OccursNoCase(needle: seq<Char>, hay: seq<Char>, i: nat) {
    i + |needle| <= |hay| && forall k :: 0 <= k < |needle| ==> Lower(hay[i + k]) == Lower(needle[k])
  }

  lemma ByteInjective(c: Char, d: Char)
    ensures Byte(c) == Byte(d) <==> c == d
  {
  }

  /** What a search comes to: the place of a match, none, or a window at j whose last character is no index of the
      shift table, because it is negative. */
  datatype Outcome = Match(at: nat) | NoMatch | NoShift(j: nat)

  /** The answer is the least position with a property, or none when no position has it; or else the search came
      without a match to a window of len characters that ends in a negative one. */
  ghost predicate FirstAt(r: Outcome, hay: seq<Char>, len: nat, p: nat -> bool) {
    match r
    case NoMatch => forall i: nat :: !p(i)
    case Match(at) => p(at) && forall i: nat :: i < at ==> !p(i)
    case NoShift(j) => 0 < len <= j + len <= |hay| && hay[j + len - 1] < 0 && forall i: nat :: i <= j ==> !p(i)
  }

  /** No window of len characters ends in a negative one. */
  predicate ShiftsKnown(hay: seq<Char>, len: nat) {
    forall i :: 0 <= len - 1 <= i < |hay| ==> 0 <= hay[i]
  }

  /** A character is one of the two forms of another exactly if they are the same letter. */
  lemma EitherCase(x: Char, c: Char)
    ensures x == Lower(c) || x == Upper(c) <==> Lower(x) == Lower(c)
  {
  }

  class StringMatch {
    const len: nat
    const str: seq<Char>
    const str2: seq<Char>
    const shift: array<nat>

    ghost predicate Shaped() {
      0 < len == |str| == |str2| && shift.Length == CHARSET_SIZE
    }

    /** Position k of the needle takes character c, in one of its two forms. */
    predicate Allows(k: nat, c: Char)
      requires k < |str| == |str2|
    {
      c == str[k] || c == str2[k]
    }

    /** Position k of the needle takes the character it meets when the needle stands at j. */
    predicate Meets(hay: seq<Char>, j: nat, k: nat)
      requires k < |str| == |str2| && j + k < |hay|
    {
      Allows(k, hay[j + k])
    }

    /** With the needle at j, every position takes the character it meets. */
    ghost predicate Matches(hay: seq<Char>, j: nat)
      requires Shaped()
    {
      j + len <= |hay| && forall k :: 0 <= k < len ==> Meets(hay, j, k)
    }

    /** Of the first i positions, none at less than the shift of c from the last one takes c. */
    ghost predicate FilledFor(t: seq<nat>, i: nat, c: Char)
      requires Shaped() && i < len && |t| == CHARSET_SIZE
    {
      0 < t[Byte(c)] <= len && forall k :: len - t[Byte(c)] <= k < i ==> !Allows(k, c)
    }

    ghost predicate Filled(t: seq<nat>, i: nat)
      requires Shaped() && i < len && |t| == CHARSET_SIZE
    {
      forall c: Char :: FilledFor(t, i, c)
    }

    /** The table is made up: its shifts are positive and pass over no position that takes their character. */
    ghost predicate Valid()
      reads shift
    {
      Shaped() && Filled(shift[..], len - 1)
    }

    constructor Init(needle: seq<Char>)
      requires needle != []
      ensures Valid() && str == needle == str2 && fresh(shift)
    {
      len, str, str2 := |needle|, needle, needle;
      shift := new nat[CHARSET_SIZE];
      new;
      Fill();
    }

    constructor InitNoCase(needle: seq<Char>)
      requires needle != []
      ensures Valid() && IsCased(needle) && fresh(shift)
    {
      len := |needle|;
      str := seq(|needle|, i requires 0 <= i < |needle| => Lower(needle[i]));
      str2 := seq(|needle|, i requires 0 <= i < |needle| => Upper(needle[i]));
      shift := new nat[CHARSET_SIZE];
      new;
      Fill();
    }

    /** The two forms kept are the lower case and the upper case of the needle. */
    ghost predicate IsCased(needle: seq<Char>) {
      |str| == |str2| == |needle| &&
      forall k :: 0 <= k < |needle| ==> str[k] == Lower(needle[k]) && str2[k] == Upper(needle[k])
    }

    /** The shift of a character becomes the distance from the end of its last position but for the final one. */
    method Fill()
      requires Shaped()
      modifies shift
      ensures Valid()
    {
      for i := 0 to CHARSET_SIZE
        invariant forall b :: 0 <= b < i ==> shift[b] == len
      {
        shift[i] := len;
      }
      for i := 0 to len - 1
        invariant Filled(shift[..], i)
      {
        FillStep(shift[..], i);
        shift[Byte(str[i])] := len - i - 1;
        shift[Byte(str2[i])] := len - i - 1;
      }
    }

    /** Setting the shift of both forms of position i accounts for that position too. */
    lemma FillStep(t: seq<nat>, i: nat)
      requires Shaped() && i < len - 1 && |t| == CHARSET_SIZE && Filled(t, i)
      ensures Filled(t[Byte(str[i]) := len - i - 1][Byte(str2[i]) := len - i - 1], i + 1)
    {
      var u := t[Byte(str[i]) := len - i - 1][Byte(str2[i]) := len - i - 1];
      var next := i + 1;
      forall c: Char
        ensures FilledFor(u, next, c)
      {
        assert FilledFor(t, i, c);
        ByteInjective(c, str[i]);
        ByteInjective(c, str2[i]);
      }
    }

    /** No shift passes over a position where the needle could stand. */
    lemma SkipSafe(hay: seq<Char>, j: nat, i: nat)
      requires Valid() && j + len <= |hay| && j < i < j + shift[Byte(hay[j + len - 1])]
      ensures !Matches(hay, i)
    {
      var c := hay[j + len - 1];
      assert FilledFor(shift[..], len - 1, c);
      var k := j + len - 1 - i;
      assert !Allows(k, c);
      assert i + len <= |hay| ==> !Meets(hay, i, k);
    }

    /** Past a position that does not match, everything up to its shift does not match either. */
    lemma PassOver(hay: seq<Char>, j: nat)
      requires Valid() && j + len <= |hay| && !Matches(hay, j)
      ensures shift[Byte(hay[j + len - 1])] > 0
      ensures forall i :: j <= i < j + shift[Byte(hay[j + len - 1])] ==> !Matches(hay, i)
    {
      assert FilledFor(shift[..], len - 1, hay[j + len - 1]);
      forall i | j < i < j + shift[Byte(hay[j + len - 1])]
        ensures !Matches(hay, i)
      {
        SkipSafe(hay, j, i);
      }
    }

    /** stringmatch: where the needle first occurs, in a haystack of characters that index the shift table. */
    method Find(hay: seq<Char>) returns (r: Outcome)
      requires Valid() && str == str2
      ensures FirstAt(r, hay, len, (i: nat) => Occurs(str, hay, i))
      ensures ShiftsKnown(hay, len) ==> !r.NoShift?
    {
      SameForms(hay);
      if |hay| < len {
        return NoMatch;
      }
      var j: nat := 0;
      while j <= |hay| - len
        invariant forall i :: 0 <= i < j ==> !Matches(hay, i)
      {
        var c := hay[j + len - 1];
        if str[len - 1] == c && str[..len - 1] == hay[j..j + len - 1] {
          return Match(j);
        }
        PassOver(hay, j);
        if c < 0 {
          return NoShift(j);
        }
        j := j + shift[c];
      }
      return NoMatch;
    }

    /** stringmatch_nocase: where the needle first occurs with letters of either case taken for each other. */
    method FindNoCase(needle: seq<Char>, hay: seq<Char>) returns (r: Outcome)
      requires Valid() && IsCased(needle)
      ensures FirstAt(r, hay, len, (i: nat) => OccursNoCase(needle, hay, i))
      ensures ShiftsKnown(hay, len) ==> !r.NoShift?
    {
      CasedForms(needle, hay);
      if |hay| < len {
        return NoMatch;
      }
      var j: nat := 0;
      while j <= |hay| - len
        invariant forall i :: 0 <= i < j ==> !Matches(hay, i)
      {
        var c := hay[j + len - 1];
        if str[len - 1] == c || str2[len - 1] == c {
          var i := 0;
          while i < len - 1 && (str[i] == hay[j + i] || str2[i] == hay[j + i])
            invariant i <= len - 1
            invariant forall k :: 0 <= k < i ==> Meets(hay, j, k)
          {
            i := i + 1;
          }
          if i == len - 1 {
            assert Meets(hay, j, len - 1);
            return Match(j);
          }
          assert !Meets(hay, j, i);
        } else {
          assert !Meets(hay, j, len - 1);
        }
        PassOver(hay, j);
        if c < 0 {
          return NoShift(j);
        }
        j := j + shift[c];
      }
      return NoMatch;
    }

    /** When both forms are the needle itself, to match is to occur. */
    lemma SameForms(hay: seq<Char>)
      requires Shaped() && str == str2
      ensures forall j: nat :: Matches(hay, j) <==> Occurs(str, hay, j)
    {
      forall j: nat
        ensures Matches(hay, j) <==> Occurs(str, hay, j)
      {
        if Occurs(str, hay, j) {
          assert forall k :: 0 <= k < len ==> Meets(hay, j, k);
        }
        if Matches(hay, j) {
          forall k | 0 <= k < len
            ensures hay[j + k] == str[k]
          {
            assert Meets(hay, j, k);
          }
        }
      }
    }

    /** When the forms are the two cases of a needle, to match is to occur but for case. */
    lemma CasedForms(needle: seq<Char>, hay: seq<Char>)
      requires Shaped() && IsCased(needle)
      ensures forall j: nat :: Matches(hay, j) <==> OccursNoCase(needle, hay, j)
    {
      forall j: nat
        ensures Matches(hay, j) <==> OccursNoCase(needle, hay, j)
      {
        if j + len <= |hay| {
          forall k | 0 <= k < len
            ensures Meets(hay, j, k) <==> Lower(hay[j + k]) == Lower(needle[k])
          {
            EitherCase(hay[j + k], needle[k]);
          }
        }
      }
    }
  }
}
