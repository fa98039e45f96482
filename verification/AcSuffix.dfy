/** Longest suffixes within a set of paths, and what failure links must compute. */
module AcSuffix {
  type Char = int
  type Word = seq<Char>

  ghost predicate PrefixClosed(paths: iset<Word>) {
    [] in paths && forall w, c :: w + [c] in paths ==> w in paths
  }

  ghost predicate IsSuffix(s: Word, w: Word) {
    |s| <= |w| && w[|w| - |s|..] == s
  }

  /** The longest suffix of w that is a path. */
  ghost function Suf(paths: iset<Word>, w: Word): Word {
    if w == [] || w in paths then w else Suf(paths, w[1..])
  }

  lemma SuffixOfTail(s: Word, w: Word)
    requires w != []
    ensures IsSuffix(s, w[1..]) ==> IsSuffix(s, w)
    ensures IsSuffix(s, w) && |s| < |w| ==> IsSuffix(s, w[1..])
  {
    if |s| < |w| {
      assert w[1..][|w[1..]| - |s|..] == w[|w| - |s|..];
    }
  }

  lemma SuffixTrans(s: Word, t: Word, w: Word)
    requires IsSuffix(s, t) && IsSuffix(t, w)
    ensures IsSuffix(s, w)
  {
    assert w[|w| - |s|..] == w[|w| - |t|..][|t| - |s|..];
  }

  /** Suf really is the longest suffix. */
  lemma {:induction false} SufIsLongest(paths: iset<Word>, w: Word)
    requires [] in paths
    ensures Suf(paths, w) in paths && IsSuffix(Suf(paths, w), w)
    ensures forall s :: IsSuffix(s, w) && s in paths ==> |s| <= |Suf(paths, w)|
    decreases |w|
  {
    if w != [] && w !in paths {
      SufIsLongest(paths, w[1..]);
      SuffixOfTail(Suf(paths, w[1..]), w);
      forall s | IsSuffix(s, w) && s in paths
        ensures |s| <= |Suf(paths, w)|
      {
        SuffixOfTail(s, w);
      }
    }
  }

  lemma {:induction false} SufShort(paths: iset<Word>, w: Word)
    ensures |Suf(paths, w)| <= |w|
    decreases |w|
  {
    if w != [] && w !in paths {
      SufShort(paths, w[1..]);
    }
  }

  /** Where the failure link of the node for w must lead: the longest proper suffix that is a path. */
  ghost function FailWord(paths: iset<Word>, w: Word): (s: Word)
    ensures |s| <= |w| && (w != [] ==> |s| < |w|)
  {
    if w == [] then [] else SufShort(paths, w[1..]); Suf(paths, w[1..])
  }

  /** One character of goto/fail search from the path v. */
  ghost function Step(paths: iset<Word>, v: Word, c: Char): Word
    decreases |v|
  {
    if v + [c] in paths then v + [c]
    else if v == [] then []
    else Step(paths, FailWord(paths, v), c)
  }

  lemma TailOfSnoc(w: Word, c: Char)
    ensures w == [] ==> (w + [c])[1..] == []
    ensures w != [] ==> (w + [c])[1..] == w[1..] + [c]
  {
  }

  /** Following failure links computes the longest suffix of the extended text. */
  lemma {:induction false} StepIsSuf(paths: iset<Word>, w: Word, c: Char)
    requires PrefixClosed(paths)
    ensures Step(paths, Suf(paths, w), c) == Suf(paths, w + [c])
    decreases |w|
  {
    TailOfSnoc(w, c);
    if w + [c] !in paths && w != [] {
      StepIsSuf(paths, w[1..], c);
    }
  }

  lemma FailWordOfChild(paths: iset<Word>, w: Word, c: Char)
    requires PrefixClosed(paths)
    ensures FailWord(paths, w + [c]) == if w == [] then [] else Step(paths, FailWord(paths, w), c)
  {
    TailOfSnoc(w, c);
    if w != [] {
      StepIsSuf(paths, w[1..], c);
    }
  }
}
