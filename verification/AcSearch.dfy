/** What goto/fail search reports, character by character. */
module AcSearch {
  import opened AcSuffix

  /** A match callback: the reported keyword and how many characters of the buffer came before it. */
  datatype Event = Event(key: Word, at: nat)

  /** Folding a step function over the first i elements of a sequence. */
  ghost function Iterate<S, C>(step: (S, C) -> S, v: S, text: seq<C>, i: nat): S
    requires i <= |text|
    decreases i
  {
    if i == 0 then v else step(Iterate(step, v, text, i - 1), text[i - 1])
  }

  lemma {:induction false} IterateFirst<S, C>(step: (S, C) -> S, v: S, a: seq<C>, b: seq<C>, i: nat)
    requires i <= |a|
    ensures Iterate(step, v, a + b, i) == Iterate(step, v, a, i)
    decreases i
  {
    if i > 0 {
      IterateFirst(step, v, a, b, i - 1);
    }
  }

  lemma {:induction false} IterateSecond<S, C>(step: (S, C) -> S, v: S, a: seq<C>, b: seq<C>, i: nat)
    requires i <= |b|
    ensures Iterate(step, v, a + b, |a| + i) == Iterate(step, Iterate(step, v, a, |a|), b, i)
    decreases i
  {
    if i > 0 {
      IterateSecond(step, v, a, b, i - 1);
    } else {
      IterateFirst(step, v, a, b, |a|);
    }
  }

  ghost function StepOf(paths: iset<Word>): (Word, Char) -> Word {
    (v, c) => Step(paths, v, c)
  }

  /** The state after reading the first i characters of text from the state v. */
  ghost function StateAt(paths: iset<Word>, v: Word, text: Word, i: nat): Word
    requires i <= |text|
  {
    Iterate(StepOf(paths), v, text, i)
  }

  lemma StateNext(paths: iset<Word>, v: Word, text: Word, i: nat)
    requires i < |text|
    ensures StateAt(paths, v, text, i + 1) == Step(paths, StateAt(paths, v, text, i), text[i])
  {
  }

  /** From the root, the state is the longest suffix of the text read that is a trie path. */
  lemma {:induction false} StateIsSuf(paths: iset<Word>, text: Word, i: nat)
    requires i <= |text|
    requires PrefixClosed(paths)
    ensures StateAt(paths, [], text, i) == Suf(paths, text[..i])
    decreases i
  {
    if i > 0 {
      StateIsSuf(paths, text, i - 1);
      StateNext(paths, [], text, i - 1);
      StepIsSuf(paths, text[..i - 1], text[i - 1]);
      assert text[..i] == text[..i - 1] + [text[i - 1]];
    } else {
      assert text[..0] == [];
    }
  }

  /** How many nodes in a row are keywords along the failure links from v. */
  ghost function ChainLength(paths: iset<Word>, keys: imap<Word, Word>, v: Word): nat
    decreases |v|
  {
    if v != [] && v in keys then 1 + ChainLength(paths, keys, FailWord(paths, v)) else 0
  }

  /** The word reached from v by following n failure links. */
  ghost function FailsFrom(paths: iset<Word>, v: Word, n: nat): Word {
    if n == 0 then v else FailWord(paths, FailsFrom(paths, v, n - 1))
  }

  ghost predicate KeywordAt(paths: iset<Word>, keys: imap<Word, Word>, v: Word, n: nat) {
    FailsFrom(paths, v, n) != [] && FailsFrom(paths, v, n) in keys
  }

  lemma {:induction false} FailsShift(paths: iset<Word>, v: Word, n: nat)
    requires n > 0
    ensures FailsFrom(paths, v, n) == FailsFrom(paths, FailWord(paths, v), n - 1)
  {
    if n > 1 {
      FailsShift(paths, v, n - 1);
    }
  }

  /** The chain from v goes on for exactly as many failure links as lead to keywords without a gap. */
  lemma {:induction false} ChainLengthIs(paths: iset<Word>, keys: imap<Word, Word>, v: Word, n: nat)
    ensures ChainLength(paths, keys, v) == n <==>
      !KeywordAt(paths, keys, v, n) && forall i: nat :: i < n ==> KeywordAt(paths, keys, v, i)
    decreases |v|
  {
    hide FailWord;
    if v != [] && v in keys {
      assert KeywordAt(paths, keys, v, 0);
      var f := FailWord(paths, v);
      forall i: nat | i > 0
        ensures KeywordAt(paths, keys, v, i) <==> KeywordAt(paths, keys, f, i - 1)
      {
        FailsShift(paths, v, i);
      }
      if n > 0 {
        ChainLengthIs(paths, keys, f, n - 1);
        assert forall i: nat :: i < n - 1 ==> (KeywordAt(paths, keys, f, i) <==> KeywordAt(paths, keys, v, i + 1));
      }
    } else {
      assert !KeywordAt(paths, keys, v, 0);
    }
  }

  /** The keywords reported on arriving in state v: its own, then the keyword of its failure node
      once for every keyword in a row along the failure links. */
  ghost function Reports(paths: iset<Word>, keys: imap<Word, Word>, v: Word): seq<Word> {
    if v == [] then [] else Own(keys, v) + Chain(paths, keys, FailWord(paths, v))
  }

  ghost function Own(keys: imap<Word, Word>, v: Word): seq<Word> {
    if v in keys then [keys[v]] else []
  }

  ghost function Chain(paths: iset<Word>, keys: imap<Word, Word>, f: Word): seq<Word> {
    if f in keys then Repeat(keys[f], ChainLength(paths, keys, f)) else []
  }

  ghost function Repeat(k: Word, n: nat): seq<Word> {
    seq(n, _ => k)
  }

  /** In a state the keyword of its own is reported once, and that of its failure node as often as the chain from
      there goes on. */
  lemma ReportsCounted(paths: iset<Word>, keys: imap<Word, Word>, v: Word, n: nat)
    requires v != [] && !KeywordAt(paths, keys, FailWord(paths, v), n)
    requires forall i: nat :: i < n ==> KeywordAt(paths, keys, FailWord(paths, v), i)
    ensures var own, r := if v in keys then 1 else 0, Reports(paths, keys, v);
      && |r| == own + n && (own == 1 ==> r[0] == keys[v])
      && forall k :: own <= k < |r| ==> FailWord(paths, v) in keys && r[k] == keys[FailWord(paths, v)]
  {
    ChainLengthIs(paths, keys, FailWord(paths, v), n);
    assert n > 0 ==> KeywordAt(paths, keys, FailWord(paths, v), 0);
    hide FailWord;
  }

  /** The keywords reported after the character at index i. */
  ghost function ReportsAt(paths: iset<Word>, keys: imap<Word, Word>, v: Word, text: Word, i: nat): seq<Word>
    requires i < |text|
  {
    Reports(paths, keys, StateAt(paths, v, text, i + 1))
  }

  ghost function Stamped(words: seq<Word>, at: nat): seq<Event> {
    seq(|words|, i requires 0 <= i < |words| => Event(words[i], at))
  }

  /** All callbacks for the first i characters of text from the state v, when none asks to stop. */
  ghost function Run(paths: iset<Word>, keys: imap<Word, Word>, v: Word, text: Word, i: nat): seq<Event>
    requires i <= |text|
    decreases i
  {
    if i == 0 then [] else Run(paths, keys, v, text, i - 1) + Stamped(ReportsAt(paths, keys, v, text, i - 1), i)
  }

  lemma {:induction false} RunGrows(paths: iset<Word>, keys: imap<Word, Word>, v: Word, text: Word, i: nat, j: nat)
    requires i <= j <= |text|
    ensures Run(paths, keys, v, text, i) <= Run(paths, keys, v, text, j)
    decreases j
  {
    if i < j {
      RunGrows(paths, keys, v, text, i, j - 1);
    }
  }

  /** The state w is on its way to the state after the character at index i. */
  ghost predicate Tracks(paths: iset<Word>, v: Word, text: Word, i: nat, w: Word)
    requires i <= |text|
  {
    if i == |text| then w == StateAt(paths, v, text, i)
    else Step(paths, w, text[i]) == StateAt(paths, v, text, i + 1)
  }

  lemma TracksFrom(paths: iset<Word>, v: Word, text: Word, i: nat)
    requires i <= |text|
    ensures Tracks(paths, v, text, i, StateAt(paths, v, text, i))
  {
    if i < |text| {
      StateNext(paths, v, text, i);
    }
  }

  // What the run makes of one more character.
  lemma RunNext(paths: iset<Word>, keys: imap<Word, Word>, v: Word, text: Word, i: nat)
    requires i < |text|
    ensures Run(paths, keys, v, text, i + 1) ==
      Run(paths, keys, v, text, i) + Stamped(Reports(paths, keys, StateAt(paths, v, text, i + 1)), i + 1)
    ensures StateAt(paths, v, text, i + 1) == [] ==> Run(paths, keys, v, text, i + 1) == Run(paths, keys, v, text, i)
    ensures Run(paths, keys, v, text, i + 1) <= Run(paths, keys, v, text, |text|)
  {
    RunGrows(paths, keys, v, text, i + 1, |text|);
  }

  // ----- callbacks that may ask to stop -----

  /** No callback up to the end of events asked to stop. */
  ghost predicate NeverStops(stop: seq<Event> -> bool, events: seq<Event>) {
    forall i :: 0 < i <= |events| ==> !stop(events[..i])
  }

  /** The last callback of events, and no earlier one, asked to stop. */
  ghost predicate StopsAt(stop: seq<Event> -> bool, events: seq<Event>) {
    events != [] && stop(events) && NeverStops(stop, events[..|events| - 1])
  }

  lemma OneMore(stop: seq<Event> -> bool, events: seq<Event>, e: Event)
    requires NeverStops(stop, events)
    ensures if stop(events + [e]) then StopsAt(stop, events + [e]) else NeverStops(stop, events + [e])
  {
    var s := events + [e];
    assert s[..|s| - 1] == events && s[..|s|] == s;
    forall i | 0 < i <= |events|
      ensures !stop(s[..i])
    {
      assert s[..i] == events[..i];
    }
  }

  // Repeating a keyword once more.
  lemma RepeatMore(events: seq<Event>, k: Word, n: nat, m: nat, at: nat)
    requires n < m
    ensures events + Stamped(Repeat(k, n), at) + [Event(k, at)] == events + Stamped(Repeat(k, n + 1), at)
    ensures events + Stamped(Repeat(k, n), at) + [Event(k, at)] <= events + Stamped(Repeat(k, m), at)
  {
    assert Stamped(Repeat(k, n), at) + [Event(k, at)] == Stamped(Repeat(k, n + 1), at);
    assert Stamped(Repeat(k, n + 1), at) == Stamped(Repeat(k, m), at)[..n + 1];
  }

  // ----- searching in chunks -----

  lemma FirstChunk(paths: iset<Word>, keys: imap<Word, Word>, v: Word, a: Word, b: Word, i: nat)
    requires i < |a|
    ensures ReportsAt(paths, keys, v, a + b, i) == ReportsAt(paths, keys, v, a, i)
  {
    IterateFirst(StepOf(paths), v, a, b, i + 1);
  }

  lemma SecondChunk(paths: iset<Word>, keys: imap<Word, Word>, v: Word, a: Word, b: Word, i: nat)
    requires i < |b|
    ensures ReportsAt(paths, keys, v, a + b, |a| + i) == ReportsAt(paths, keys, StateAt(paths, v, a, |a|), b, i)
  {
    IterateSecond(StepOf(paths), v, a, b, i + 1);
  }

  /** Searching a text in two chunks ends in the same state and reports the same keywords after
      every character as searching it at once. */
  lemma SearchInChunks(paths: iset<Word>, keys: imap<Word, Word>, v: Word, a: Word, b: Word)
    ensures var w := StateAt(paths, v, a, |a|);
      && StateAt(paths, v, a + b, |a + b|) == StateAt(paths, w, b, |b|)
      && (forall i :: 0 <= i < |a| ==> ReportsAt(paths, keys, v, a + b, i) == ReportsAt(paths, keys, v, a, i))
      && (forall i :: 0 <= i < |b| ==> ReportsAt(paths, keys, v, a + b, |a| + i) == ReportsAt(paths, keys, w, b, i))
  {
    IterateSecond(StepOf(paths), v, a, b, |b|);
    forall i | 0 <= i < |a|
      ensures ReportsAt(paths, keys, v, a + b, i) == ReportsAt(paths, keys, v, a, i)
    {
      FirstChunk(paths, keys, v, a, b, i);
    }
    forall i | 0 <= i < |b|
      ensures ReportsAt(paths, keys, v, a + b, |a| + i) == ReportsAt(paths, keys, StateAt(paths, v, a, |a|), b, i)
    {
      SecondChunk(paths, keys, v, a, b, i);
    }
  }

  // ----- soundness -----

  /** Every report in a state names the keyword of the state or of its failure node. */
  lemma ReportsNameTwo(paths: iset<Word>, keys: imap<Word, Word>, v: Word, k: Word)
    requires k in Reports(paths, keys, v)
    ensures v != []
    ensures (v in keys && k == keys[v]) || (FailWord(paths, v) in keys && k == keys[FailWord(paths, v)])
  {
    assert k in Own(keys, v) || k in Chain(paths, keys, FailWord(paths, v));
  }

  lemma FailWordIsSuffix(paths: iset<Word>, v: Word, t: Word)
    requires [] in paths && v != [] && IsSuffix(v, t)
    ensures IsSuffix(FailWord(paths, v), t)
  {
    SufIsLongest(paths, v[1..]);
    SuffixOfTail(FailWord(paths, v), v);
    SuffixTrans(FailWord(paths, v), v, t);
  }

  lemma ReportIsMatch(paths: iset<Word>, keys: imap<Word, Word>, text: Word, i: nat, k: Word)
    requires PrefixClosed(paths) && i <= |text| && k in Reports(paths, keys, StateAt(paths, [], text, i))
    ensures exists w :: w in keys && keys[w] == k && IsSuffix(w, text[..i])
  {
    var v := StateAt(paths, [], text, i);
    ReportsNameTwo(paths, keys, v, k);
    StateIsSuf(paths, text, i);
    SufIsLongest(paths, text[..i]);
    FailWordIsSuffix(paths, v, text[..i]);
  }

  lemma InStamped(words: seq<Word>, at: nat, e: Event)
    requires e in Stamped(words, at)
    ensures e.key in words && e.at == at
  {
  }

  /** Soundness: every report is for a stored word that ends where the report is made. */
  lemma {:induction false} ReportsAreMatches(paths: iset<Word>, keys: imap<Word, Word>, text: Word, i: nat, e: Event)
    requires PrefixClosed(paths) && i <= |text| && e in Run(paths, keys, [], text, i)
    ensures e.at <= i && exists w :: w in keys && keys[w] == e.key && IsSuffix(w, text[..e.at])
    decreases i
  {
    if e in Run(paths, keys, [], text, i - 1) {
      ReportsAreMatches(paths, keys, text, i - 1, e);
    } else {
      InStamped(ReportsAt(paths, keys, [], text, i - 1), i, e);
      ReportIsMatch(paths, keys, text, i, e.key);
    }
  }

  // ----- which keywords are missed -----

  ghost predicate Reported(paths: iset<Word>, keys: imap<Word, Word>, text: Word, w: Word)
    requires text != [] && w in keys
  {
    keys[w] in ReportsAt(paths, keys, [], text, |text| - 1)
  }

  ghost predicate KeysDiffer(keys: imap<Word, Word>) {
    forall v, w :: v in keys && w in keys && keys[v] == keys[w] ==> v == w
  }

  /** Exactly the keywords of the state and of its failure node are reported, so all keywords that
      end here are reported just when no third one ends here. */
  lemma AllReportedIff(paths: iset<Word>, keys: imap<Word, Word>, text: Word)
    requires text != [] && KeysDiffer(keys) && [] !in keys
    requires PrefixClosed(paths) && forall w :: w in keys ==> w in paths
    ensures var v := Suf(paths, text);
      (forall w :: w in keys && IsSuffix(w, text) ==> Reported(paths, keys, text, w)) <==>
      (forall w :: w in keys && IsSuffix(w, text) ==> w == v || (v != [] && w == FailWord(paths, v)))
  {
    hide Reported, Suf, FailWord;
    var v := Suf(paths, text);
    forall w | w in keys && IsSuffix(w, text)
      ensures Reported(paths, keys, text, w) <==> w == v || (v != [] && w == FailWord(paths, v))
    {
      ReportedIff(paths, keys, text, w);
    }
  }

  lemma ReportedIff(paths: iset<Word>, keys: imap<Word, Word>, text: Word, w: Word)
    requires text != [] && KeysDiffer(keys) && [] !in keys && w in keys && PrefixClosed(paths)
    ensures var v := Suf(paths, text);
      Reported(paths, keys, text, w) <==> w == v || (v != [] && w == FailWord(paths, v))
  {
    hide FailWord, Suf, Step;
    var v := Suf(paths, text);
    StateIsSuf(paths, text, |text|);
    assert text[..|text|] == text;
    if Reported(paths, keys, text, w) {
      ReportsNameTwo(paths, keys, v, keys[w]);
    }
    if v != [] && w == FailWord(paths, v) {
      assert Chain(paths, keys, w)[0] == keys[w];
    }
  }

  /** Every keyword that ends where the text ends is reported there. */
  ghost predicate NoneMissed(paths: iset<Word>, keys: imap<Word, Word>, text: Word)
    requires text != []
  {
    forall w :: w in keys && IsSuffix(w, text) ==> Reported(paths, keys, text, w)
  }

  /** Every keyword that ends a path is the whole path or the longest path that is a proper suffix of it. */
  ghost predicate AtMostTwo(paths: iset<Word>, keys: imap<Word, Word>, v: Word) {
    forall w :: w in keys && IsSuffix(w, v) ==> w == v || w == FailWord(paths, v)
  }

  lemma PathOfItself(paths: iset<Word>, v: Word)
    requires v in paths
    ensures Suf(paths, v) == v
  {
  }

  // A path that ends a text ends the state reached.
  lemma SuffixOfState(paths: iset<Word>, text: Word, w: Word)
    requires [] in paths && w in paths && IsSuffix(w, text)
    ensures IsSuffix(w, Suf(paths, text))
  {
    var v := Suf(paths, text);
    SufIsLongest(paths, text);
    assert v[|v| - |w|..] == text[|text| - |v|..][|v| - |w|..];
  }

  /** No text at all has a keyword missed exactly if no path of the trie ends in a third keyword. */
  lemma NothingMissedIff(paths: iset<Word>, keys: imap<Word, Word>)
    requires KeysDiffer(keys) && [] !in keys && PrefixClosed(paths) && forall w :: w in keys ==> w in paths
    ensures (forall text: Word :: text != [] ==> NoneMissed(paths, keys, text)) <==>
      (forall v :: v in paths ==> AtMostTwo(paths, keys, v))
  {
    hide Reported, Suf, FailWord, Step;
    if forall text: Word :: text != [] ==> NoneMissed(paths, keys, text) {
      forall v | v in paths
        ensures AtMostTwo(paths, keys, v)
      {
        PathOfItself(paths, v);
        if v != [] {
          assert NoneMissed(paths, keys, v);
          AllReportedIff(paths, keys, v);
        }
      }
    }
    if forall v :: v in paths ==> AtMostTwo(paths, keys, v) {
      forall text: Word | text != []
        ensures NoneMissed(paths, keys, text)
      {
        SufIsLongest(paths, text);
        TwoSuffice(paths, keys, text);
      }
    }
  }

  lemma TwoSuffice(paths: iset<Word>, keys: imap<Word, Word>, text: Word)
    requires KeysDiffer(keys) && [] !in keys && PrefixClosed(paths) && forall w :: w in keys ==> w in paths
    requires text != [] && AtMostTwo(paths, keys, Suf(paths, text))
    ensures NoneMissed(paths, keys, text)
  {
    hide Reported, Suf, FailWord, Step;
    forall w | w in keys && IsSuffix(w, text)
      ensures Reported(paths, keys, text, w)
    {
      SuffixOfState(paths, text, w);
      EmptySuffix(w, Suf(paths, text));
      ReportedIff(paths, keys, text, w);
    }
  }

  lemma EmptySuffix(w: Word, v: Word)
    requires IsSuffix(w, v)
    ensures v == [] ==> w == []
  {
  }

  /** With the keywords "abc", "bcx" and "c", the "c" that ends the text "abc" is not reported. */
  lemma KeywordMissed(paths: iset<Word>, keys: imap<Word, Word>, abc: Word, c: Word)
    requires abc == [97, 98, 99] && c == [99]
    requires paths == iset{[], [97], [97, 98], abc, [98], [98, 99], [98, 99, 120], c}
    requires keys == imap[abc := abc, [98, 99, 120] := [98, 99, 120], c := c]
    ensures PrefixClosed(paths) && IsSuffix(c, abc) && !Reported(paths, keys, abc, c)
  {
    forall w: Word, x | w + [x] in paths
      ensures w in paths
    {
      assert w == (w + [x])[..|w + [x]| - 1];
      assert [97][..0] == [] && [98][..0] == [] && c[..0] == [] && [97, 98][..1] == [97] && [98, 99][..1] == [98];
      assert abc[..2] == [97, 98] && [98, 99, 120][..2] == [98, 99];
    }
    assert abc[1..] == [98, 99] && FailWord(paths, abc) == [98, 99];
    StateIsSuf(paths, abc, 3);
    assert abc[..3] == abc;
    if Reported(paths, keys, abc, c) {
      ReportsNameTwo(paths, keys, abc, c);
    }
  }
}
