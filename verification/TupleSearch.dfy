/** Nested search: label paths through tuples inside tuples. */
module TupleSearch {
  import opened Optional
  import opened TupleSize
  import opened T = TupleIndex

  /** The labels of one level; an id of 0 ends a path, any other is the set for the level below. */
  datatype LabelSet = LabelSet(tags: seq<nat>, ids: seq<nat>)

  /** Sets for deeper levels are built after those above them. */
  ghost predicate NestOk(nest: seq<LabelSet>) {
    && (forall s :: 0 <= s < |nest| ==> |nest[s].ids| == |nest[s].tags|)
    && (forall s, i :: 0 <= s < |nest| && 0 <= i < |nest[s].ids| ==> nest[s].ids[i] == 0 || s < nest[s].ids[i] < |nest|)
  }

  /** The members of every tuple by number, the labels a datum carries, and the tuple a datum is, if any. */
  datatype World = World(members: map<nat, seq<nat>>, labels: Labels, sub: nat -> Option<nat>, indexLen: nat)

  ghost predicate WorldOk(w: World) {
    forall t, m :: t in w.members && m in w.members[t] && w.sub(m).Some? ==> w.sub(m).value in w.members
  }

  ghost function Matched(w: World, t: nat, tag: nat): seq<nat>
    requires t in w.members
  {
    if 0 < tag <= w.indexLen then Carrying(w.members[t], w.labels, tag) else []
  }

  /** The calls a search makes, in order: the tuple and the member of each. */
  ghost function Visits(w: World, nest: seq<LabelSet>, s: nat, t: nat, from: nat): seq<(nat, nat)>
    requires NestOk(nest) && WorldOk(w) && s < |nest| && t in w.members
    decreases |nest| - s, 2, |nest[s].tags| - from
  {
    if from >= |nest[s].tags| then []
    else VisitsAt(w, nest, s, t, from) + Visits(w, nest, s, t, from + 1)
  }

  /** The calls for one label of the set. */
  ghost function VisitsAt(w: World, nest: seq<LabelSet>, s: nat, t: nat, i: nat): seq<(nat, nat)>
    requires NestOk(nest) && WorldOk(w) && s < |nest| && t in w.members && i < |nest[s].tags|
    decreases |nest| - s, 1
  {
    var row := Matched(w, t, nest[s].tags[i]);
    if nest[s].ids[i] == 0 then seq(|row|, j requires 0 <= j < |row| => (t, row[j]))
    else (
      MatchedMembers(w, t, nest[s].tags[i]);
      Inside(w, nest, nest[s].ids[i], t, row, 0))
  }

  /** The calls below the members of a row that are tuples. */
  ghost function Inside(w: World, nest: seq<LabelSet>, s: nat, t: nat, row: seq<nat>, j: nat): seq<(nat, nat)>
    requires NestOk(nest) && WorldOk(w) && s < |nest| && t in w.members && forall m :: m in row ==> m in w.members[t]
    decreases |nest| - s, 3, |row| - j
  {
    if j >= |row| then []
    else
      (if w.sub(row[j]).Some? then Visits(w, nest, s, w.sub(row[j]).value, 0) else [])
      + Inside(w, nest, s, t, row, j + 1)
  }

  lemma MatchedMembers(w: World, t: nat, tag: nat)
    requires t in w.members
    ensures forall m :: m in Matched(w, t, tag) <==> m in w.members[t] && 0 < tag <= w.indexLen && tag in w.labels(m)
  {
    forall m
      ensures m in Carrying(w.members[t], w.labels, tag) <==> m in w.members[t] && tag in w.labels(m)
    {
      CarryingIn(w.members[t], w.labels, tag, m);
    }
  }

  /** A member carries an indexed label. */
  ghost predicate Carries(w: World, t: nat, m: nat, tag: nat) {
    t in w.members && m in w.members[t] && 0 < tag <= w.indexLen && tag in w.labels(m)
  }

  /** There is a path from tuple t through label sets from s on to the member m of tuple u. */
  ghost predicate Path(w: World, nest: seq<LabelSet>, s: nat, t: nat, u: nat, m: nat)
    requires NestOk(nest) && WorldOk(w) && s < |nest| && t in w.members
    decreases |nest| - s, 2
  {
    PathFrom(w, nest, s, t, 0, u, m)
  }

  ghost predicate PathFrom(w: World, nest: seq<LabelSet>, s: nat, t: nat, from: nat, u: nat, m: nat)
    requires NestOk(nest) && WorldOk(w) && s < |nest| && t in w.members
    decreases |nest| - s, 1
  {
    exists i :: from <= i < |nest[s].tags| && PathAt(w, nest, s, t, i, u, m)
  }

  ghost predicate PathAt(w: World, nest: seq<LabelSet>, s: nat, t: nat, i: nat, u: nat, m: nat)
    requires NestOk(nest) && WorldOk(w) && s < |nest| && t in w.members && i < |nest[s].tags|
    decreases |nest| - s, 0
  {
    if nest[s].ids[i] == 0 then u == t && Carries(w, t, m, nest[s].tags[i])
    else exists c ::
           Carries(w, t, c, nest[s].tags[i]) && w.sub(c).Some? && Path(w, nest, nest[s].ids[i], w.sub(c).value, u, m)
  }

  /** A search visits exactly the members at the end of a label path. */
  lemma {:induction false} VisitsArePaths(w: World, nest: seq<LabelSet>, s: nat, t: nat, u: nat, m: nat)
    requires NestOk(nest) && WorldOk(w) && s < |nest| && t in w.members
    ensures (u, m) in Visits(w, nest, s, t, 0) <==> Path(w, nest, s, t, u, m)
    decreases |nest| - s, 3
  {
    VisitsFrom(w, nest, s, t, 0, u, m);
  }

  lemma {:induction false} VisitsFrom(w: World, nest: seq<LabelSet>, s: nat, t: nat, from: nat, u: nat, m: nat)
    requires NestOk(nest) && WorldOk(w) && s < |nest| && t in w.members
    ensures (u, m) in Visits(w, nest, s, t, from) <==> PathFrom(w, nest, s, t, from, u, m)
    decreases |nest| - s, 2, |nest[s].tags| - from
  {
    if from < |nest[s].tags| {
      hide VisitsAt, PathAt;
      VisitsAtPath(w, nest, s, t, from, u, m);
      VisitsFrom(w, nest, s, t, from + 1, u, m);
    }
  }

  lemma Pairs(row: seq<nat>, t: nat, u: nat, m: nat)
    ensures (u, m) in seq(|row|, j requires 0 <= j < |row| => (t, row[j])) <==> u == t && m in row
  {
    var pairs := seq(|row|, j requires 0 <= j < |row| => (t, row[j]));
    if u == t && m in row {
      var j :| 0 <= j < |row| && row[j] == m;
      assert pairs[j] == (u, m);
    }
  }

  lemma {:induction false} VisitsAtPath(w: World, nest: seq<LabelSet>, s: nat, t: nat, i: nat, u: nat, m: nat)
    requires NestOk(nest) && WorldOk(w) && s < |nest| && t in w.members && i < |nest[s].tags|
    ensures (u, m) in VisitsAt(w, nest, s, t, i) <==> PathAt(w, nest, s, t, i, u, m)
    decreases |nest| - s, 1
  {
    hide Matched, Visits;
    var tag, next := nest[s].tags[i], nest[s].ids[i];
    var row := Matched(w, t, tag);
    MatchedMembers(w, t, tag);
    if next == 0 {
      Pairs(row, t, u, m);
    } else {
      InsidePath(w, nest, next, t, row, 0, u, m);
      if k :| 0 <= k < |row| && PathBelow(w, nest, next, t, row[k], u, m) {
        assert Carries(w, t, row[k], tag) && w.sub(row[k]).Some? && Path(w, nest, next, w.sub(row[k]).value, u, m);
        assert PathAt(w, nest, s, t, i, u, m);
      }
      if PathAt(w, nest, s, t, i, u, m) {
        var c :| Carries(w, t, c, tag) && w.sub(c).Some? && Path(w, nest, next, w.sub(c).value, u, m);
        var k :| 0 <= k < |row| && row[k] == c;
        assert PathBelow(w, nest, next, t, row[k], u, m);
      }
    }
  }

  ghost predicate PathBelow(w: World, nest: seq<LabelSet>, s: nat, t: nat, c: nat, u: nat, m: nat)
    requires NestOk(nest) && WorldOk(w) && s < |nest| && t in w.members && c in w.members[t]
  {
    w.sub(c).Some? && Path(w, nest, s, w.sub(c).value, u, m)
  }

  lemma {:induction false} InsidePath(w: World, nest: seq<LabelSet>, s: nat, t: nat, row: seq<nat>, j: nat, u: nat,
                                      m: nat)
    requires NestOk(nest) && WorldOk(w) && s < |nest| && t in w.members && forall c :: c in row ==> c in w.members[t]
    ensures (u, m) in Inside(w, nest, s, t, row, j) <==>
      exists k :: j <= k < |row| && PathBelow(w, nest, s, t, row[k], u, m)
    decreases |nest| - s, 4, |row| - j
  {
    if j < |row| {
      hide Visits, Path;
      if w.sub(row[j]).Some? {
        VisitsArePaths(w, nest, s, w.sub(row[j]).value, u, m);
      }
      InsidePath(w, nest, s, t, row, j + 1, u, m);
    }
  }

  // ----- the loops over the index -----

  function Sum(callback: (nat, nat) -> int, visits: seq<(nat, nat)>): int {
    if visits == [] then 0
    else Sum(callback, visits[..|visits| - 1]) + callback(visits[|visits| - 1].0, visits[|visits| - 1].1)
  }

  lemma {:induction false} SumConcat(callback: (nat, nat) -> int, a: seq<(nat, nat)>, b: seq<(nat, nat)>)
    ensures Sum(callback, a + b) == Sum(callback, a) + Sum(callback, b)
    decreases |b|
  {
    if b == [] {
      assert a + b == a;
    } else {
      assert (a + b)[..|a + b| - 1] == a + b[..|b| - 1];
      SumConcat(callback, a, b[..|b| - 1]);
    }
  }

  /** The tuples are those of the world, and their indexes agree with their members. */
  ghost predicate Holds(tuples: map<nat, T.TupleIndex>, w: World)
    reads tuples.Values, set t | t in tuples.Values :: t.icnt, set t | t in tuples.Values :: t.index
  {
    && tuples.Keys == w.members.Keys
    && forall t :: t in tuples ==>
         tuples[t].Indexed() && tuples[t].members == w.members[t]
         && tuples[t].labels == w.labels && tuples[t].indexLen == w.indexLen
  }

  /** tuple_nested_search_loop: the sum of what the callback returns for every visit. */
  method NestedSearch(tuples: map<nat, T.TupleIndex>, sub: nat -> Option<nat>, nest: seq<LabelSet>,
                      callback: (nat, nat) -> int, s: nat, t: nat, ghost w: World)
    returns (cnt: int)
    requires NestOk(nest) && WorldOk(w) && s < |nest| && Holds(tuples, w) && t in tuples && sub == w.sub
    ensures cnt == Sum(callback, Visits(w, nest, s, t, 0))
    decreases |nest| - s, 1
  {
    hide VisitsAt;
    ghost var visits: seq<(nat, nat)> := [];
    cnt := 0;
    for i := 0 to |nest[s].tags|
      invariant visits + Visits(w, nest, s, t, i) == Visits(w, nest, s, t, 0)
      invariant cnt == Sum(callback, visits)
    {
      var more := SearchLabel(tuples, sub, nest, callback, s, t, i, w);
      SumConcat(callback, visits, VisitsAt(w, nest, s, t, i));
      assert visits + (VisitsAt(w, nest, s, t, i) + Visits(w, nest, s, t, i + 1))
        == visits + VisitsAt(w, nest, s, t, i) + Visits(w, nest, s, t, i + 1);
      visits := visits + VisitsAt(w, nest, s, t, i);
      cnt := cnt + more;
    }
    assert visits + [] == visits;
  }

  /** One label of the set: its members are visited, or searched if they are tuples. */
  method SearchLabel(tuples: map<nat, T.TupleIndex>, sub: nat -> Option<nat>, nest: seq<LabelSet>,
                     callback: (nat, nat) -> int, s: nat, t: nat, i: nat, ghost w: World)
    returns (cnt: int)
    requires NestOk(nest) && WorldOk(w) && s < |nest| && Holds(tuples, w) && t in tuples && sub == w.sub
    requires i < |nest[s].tags|
    ensures cnt == Sum(callback, VisitsAt(w, nest, s, t, i))
    decreases |nest| - s, 0
  {
    hide Inside, Carrying;
    cnt := 0;
    var found := tuples[t].FindLabel(nest[s].tags[i]);
    ghost var row := Matched(w, t, nest[s].tags[i]);
    MatchedMembers(w, t, nest[s].tags[i]);
    if found.Some? {
      if nest[s].ids[i] != 0 {
        cnt := SearchMembers(tuples, sub, nest, callback, nest[s].ids[i], t, found.value, w);
      } else {
        cnt := VisitMembers(callback, t, found.value);
      }
    } else if nest[s].ids[i] != 0 {
      InsideNone(w, nest, nest[s].ids[i], t);
    }
  }

  lemma InsideNone(w: World, nest: seq<LabelSet>, s: nat, t: nat)
    requires NestOk(nest) && WorldOk(w) && s < |nest| && t in w.members
    ensures Inside(w, nest, s, t, [], 0) == []
  {
  }

  method VisitMembers(callback: (nat, nat) -> int, t: nat, mset: seq<nat>) returns (cnt: int)
    ensures cnt == Sum(callback, seq(|mset|, j requires 0 <= j < |mset| => (t, mset[j])))
  {
    ghost var visits := seq(|mset|, j requires 0 <= j < |mset| => (t, mset[j]));
    cnt := 0;
    for j := 0 to |mset|
      invariant cnt == Sum(callback, visits[..j])
    {
      assert visits[..j + 1][..j] == visits[..j];
      cnt := cnt + callback(t, mset[j]);
    }
    assert visits[..|mset|] == visits;
  }

  method SearchMembers(tuples: map<nat, T.TupleIndex>, sub: nat -> Option<nat>, nest: seq<LabelSet>,
                       callback: (nat, nat) -> int, s: nat, t: nat, mset: seq<nat>, ghost w: World)
    returns (cnt: int)
    requires NestOk(nest) && WorldOk(w) && s < |nest| && Holds(tuples, w) && t in tuples && sub == w.sub
    requires forall m :: m in mset ==> m in w.members[t]
    ensures cnt == Sum(callback, Inside(w, nest, s, t, mset, 0))
    decreases |nest| - s, 2
  {
    hide Visits;
    cnt := 0;
    ghost var visits: seq<(nat, nat)> := [];
    assert visits + Inside(w, nest, s, t, mset, 0) == Inside(w, nest, s, t, mset, 0);
    for j := 0 to |mset|
      invariant visits + Inside(w, nest, s, t, mset, j) == Inside(w, nest, s, t, mset, 0)
      invariant cnt == Sum(callback, visits)
    {
      ghost var inner: seq<(nat, nat)> := [];
      var u := sub(mset[j]);
      if u.Some? {
        var more := NestedSearch(tuples, sub, nest, callback, s, u.value, w);
        inner := Visits(w, nest, s, u.value, 0);
        cnt := cnt + more;
      }
      SumConcat(callback, visits, inner);
      assert visits + (inner + Inside(w, nest, s, t, mset, j + 1)) ==
        visits + inner + Inside(w, nest, s, t, mset, j + 1);
      visits := visits + inner;
    }
    assert visits + [] == visits;
  }
}
