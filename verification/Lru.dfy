/** Lists in the order of last use. */
module Lru {
  function MoveToFront<T>(s: seq<T>, i: nat): seq<T>
    requires i < |s|
  {
    [s[i]] + s[..i] + s[i + 1..]
  }

  lemma Parts<T>(s: seq<T>, i: nat)
    requires i < |s|
    ensures s == s[..i] + [s[i]] + s[i + 1..]
  {
  }

  lemma SliceUpdate<T>(s: seq<T>, from: nat, to: nat, i: nat, x: T)
    requires from <= to <= |s| && from + i < to
    ensures s[from + i := x][from..to] == s[from..to][i := x]
  {
  }

  lemma MoveMember<T>(s: seq<T>, i: nat, x: T)
    requires i < |s|
    ensures x in MoveToFront(s, i) <==> x in s
  {
    Parts(s, i);
  }
}
