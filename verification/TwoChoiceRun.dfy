/** Where new keys go in a table that puts them in the bucket with fewer digests, as long as no bucket is full. */
module TwoChoiceRun {
  import opened TwoChoice

  /** The digests stored in each bucket. */
  type Sketch = nat -> set<bv32>

  function With(s: Sketch, h: nat, d: bv32): Sketch {
    (g: nat) => if g == h then s(g) + {d} else s(g)
  }

  /** Neither choice of the key is stored. */
  predicate Missing(s: Sketch, k: Key) {
    k.d1 !in s(k.h1) && k.d2 !in s(k.h2)
  }

  /** A new key is stored in its second bucket if that holds fewer digests, and else in its first. */
  function Placed(s: Sketch, k: Key): Sketch {
    if !Missing(s, k) then s
    else if |s(k.h2)| < |s(k.h1)| then With(s, k.h2, k.d2)
    else With(s, k.h1, k.d1)
  }

  function Empty(): Sketch {
    _ => {}
  }

  function AllPlaced(ks: seq<Key>): Sketch {
    if ks == [] then Empty() else Placed(AllPlaced(ks[..|ks| - 1]), ks[|ks| - 1])
  }

  lemma {:induction false} FewPlaced(ks: seq<Key>, h: nat)
    ensures |AllPlaced(ks)(h)| <= |ks|
  {
    if ks != [] {
      FewPlaced(ks[..|ks| - 1], h);
    }
  }

  /** The first buckets are below half, the second ones are not. */
  predicate Fits(k: Key, half: nat) {
    k.h1 < half <= k.h2
  }

  predicate Both(s: Sketch, k: Key) {
    k.d1 in s(k.h1) && k.d2 in s(k.h2)
  }

  predicate SharesFirst(k: Key, j: Key) {
    j.h1 == k.h1 && j.d1 == k.d1
  }

  predicate SharesSecond(k: Key, j: Key) {
    j.h2 == k.h2 && j.d2 == k.d2
  }

  // What placing a key in a bucket makes of the buckets one looks at.
  lemma InFirst(s: Sketch, k: Key)
    requires Missing(s, k) && |s(k.h2)| >= |s(k.h1)|
    ensures forall h :: Placed(s, k)(h) == if h == k.h1 then s(h) + {k.d1} else s(h)
  {
  }

  lemma InSecond(s: Sketch, k: Key)
    requires Missing(s, k) && |s(k.h2)| < |s(k.h1)|
    ensures forall h :: Placed(s, k)(h) == if h == k.h2 then s(h) + {k.d2} else s(h)
  {
  }

  lemma OneMore(ks: seq<Key>, k: Key)
    ensures AllPlaced(ks + [k]) == Placed(AllPlaced(ks), k)
  {
    assert (ks + [k])[..|ks|] == ks;
  }

  // The first key of all goes to its first bucket.
  lemma FirstOfAll(w: Key)
    ensures forall h :: AllPlaced([w])(h) == if h == w.h1 then {w.d1} else {}
  {
    assert [] + [w] == [w];
    OneMore([], w);
    InFirst(AllPlaced([]), w);
  }

  // A key shares its second choice with another one.
  lemma SecondShared(k: Key, b: Key, half: nat, w: Key) returns (ks: seq<Key>)
    requires Fits(k, half) && Fits(b, half) && Fits(w, half) && SharesSecond(k, b) && !SharesFirst(k, b)
    requires w.h1 == b.h1 && w.d1 != b.d1
    ensures ks == if b.h1 == k.h1 then [k, b] else [w, k, b]
    ensures Both(AllPlaced(ks), k)
  {
    hide AllPlaced, Placed;
    if b.h1 == k.h1 {
      FirstOfAll(k);
      InSecond(AllPlaced([k]), b);
      OneMore([k], b);
      ks := [k] + [b];
    } else {
      FirstOfAll(w);
      InFirst(AllPlaced([w]), k);
      OneMore([w], k);
      InSecond(AllPlaced([w] + [k]), b);
      OneMore([w] + [k], b);
      ks := [w] + [k] + [b];
    }
  }

  // A key shares its first choice with another one, whose second bucket is the same.
  lemma FirstShared(k: Key, a: Key, half: nat, w: Key) returns (ks: seq<Key>)
    requires Fits(k, half) && Fits(a, half) && Fits(w, half) && SharesFirst(k, a) && a.h2 == k.h2 && a.d2 != k.d2
    requires w.h1 == k.h1 && w.d1 != k.d1
    ensures ks == [w, k, a] && Both(AllPlaced(ks), k)
  {
    hide AllPlaced, Placed;
    FirstOfAll(w);
    InSecond(AllPlaced([w]), k);
    OneMore([w], k);
    InFirst(AllPlaced([w] + [k]), a);
    OneMore([w] + [k], a);
    ks := [w] + [k] + [a];
  }

  // Keys that come first, so that the first bucket of k and the second one of a hold one digest each.
  lemma Fillers(k: Key, a: Key, half: nat, v: Key, u: Key, w: Key) returns (ks: seq<Key>)
    requires Fits(k, half) && Fits(a, half) && Fits(v, half) && Fits(u, half) && Fits(w, half)
    requires u.h2 == a.h2 && v.h1 == u.h1 && v.d1 != u.d1 && v.d1 != k.d1
    requires w.h1 == k.h1 && w.d1 != k.d1 && (u.h1 != k.h1 ==> !SharesSecond(w, u))
    ensures ks == if u.h1 == k.h1 then [v, u] else [v, u, w]
    ensures AllPlaced(ks)(a.h2) == {u.d2} && |AllPlaced(ks)(k.h1)| == 1 && k.d1 !in AllPlaced(ks)(k.h1)
    ensures k.h2 != a.h2 ==> AllPlaced(ks)(k.h2) == {}
  {
    hide AllPlaced, Placed;
    FirstOfAll(v);
    InSecond(AllPlaced([v]), u);
    OneMore([v], u);
    ks := [v] + [u];
    if u.h1 != k.h1 {
      InFirst(AllPlaced(ks), w);
      OneMore(ks, w);
      ks := ks + [w];
    }
  }

  // The same when the second buckets differ: other keys are put in that of the other key first.
  lemma FirstSharedFar(k: Key, a: Key, half: nat, v: Key, u: Key, w: Key) returns (ks: seq<Key>)
    requires Fits(k, half) && Fits(a, half) && Fits(v, half) && Fits(u, half) && Fits(w, half)
    requires SharesFirst(k, a) && a.h2 != k.h2 && u.h2 == a.h2 && u.d2 != a.d2
    requires v.h1 == u.h1 && v.d1 != u.d1 && v.d1 != k.d1
    requires w.h1 == k.h1 && w.d1 != k.d1 && (u.h1 != k.h1 ==> !SharesSecond(w, u))
    ensures ks == if u.h1 == k.h1 then [v, u, k, a] else [v, u, w, k, a]
    ensures Both(AllPlaced(ks), k)
  {
    hide AllPlaced, Placed;
    ks := Fillers(k, a, half, v, u, w);
    InSecond(AllPlaced(ks), k);
    OneMore(ks, k);
    ks := ks + [k];
    InFirst(AllPlaced(ks), a);
    OneMore(ks, a);
    ks := ks + [a];
  }
}
