/** Exactly which texts the parser accepts as which values: keywords, numbers, strings, and arrays and objects of values
    that are separated by commas and colons with white space around them. */
module JsonAccepts {
  import opened JsonText
  import opened JsonValue
  import opened JsonParse
  import JsonGrammar

  /** Nothing but white space stands from i to j. */
  predicate Gap(s: string, i: nat, j: nat) {
    i <= j && forall k: nat :: i <= k < j ==> Space(At(s, k))
  }

  lemma GapIsSkip(s: string, i: nat, j: nat)
    ensures Gap(s, i, j) && !Space(At(s, j)) <==> Skip(s, i) == j
  {
    if Gap(s, i, j) && !Space(At(s, j)) {
      SkipTo(s, i, j);
    }
  }

  /** The value v stands from i to k. */
  ghost predicate Stands(s: string, i: nat, v: Value, k: nat)
    decreases v, 1
  {
    match v
    case Null => Here(s, i, "null") && k == i + 4
    case False => Here(s, i, "false") && k == i + 5
    case True => Here(s, i, "true") && k == i + 4
    case Number(_, _) => (At(s, i) == '-' || Digit(At(s, i))) && ParseNumber(s, i) == Ok(v, k)
    case String(t) => At(s, i) == '\"' && ParseString(s, i) == Ok(t, k)
    case Array(items) =>
      At(s, i) == '[' &&
      if items.NoItem? then Closed(s, i + 1, ']', k) else ItemsStand(s, i + 1, items, k)
    case Object(members) =>
      At(s, i) == '{' &&
      if members.NoMember? then Closed(s, i + 1, '}', k) else MembersStand(s, i + 1, members, k)
  }

  /** White space from i to j, and there the character that ends at k. */
  predicate Closing(s: string, i: nat, j: nat, c: char, k: nat) {
    Gap(s, i, j) && At(s, j) == c && k == j + 1
  }

  predicate Closed(s: string, i: nat, c: char, k: nat) {
    k > 0 && Closing(s, i, k - 1, c, k)
  }

  /** The values of an array: after white space from i to j the first one up to e, after more up to m a comma and the
      others, or the end. */
  ghost predicate ItemsStand(s: string, i: nat, items: Items, k: nat)
    requires items.Item?
    decreases items, 1
  {
    exists j: nat, e: nat, m: nat :: FirstStands(s, i, items, k, j, e, m)
  }

  ghost predicate FirstStands(s: string, i: nat, items: Items, k: nat, j: nat, e: nat, m: nat)
    requires items.Item?
    decreases items, 0
  {
    && Gap(s, i, j) && Stands(s, j, items.value, e)
    && if items.next.NoItem? then Closing(s, e, m, ']', k)
       else Closing(s, e, m, ',', m + 1) && ItemsStand(s, m + 1, items.next, k)
  }

  ghost predicate MembersStand(s: string, i: nat, members: Members, k: nat)
    requires members.Member?
    decreases members, 1
  {
    exists n: nat, c: nat, j: nat, e: nat, m: nat :: MemberStands(s, i, members, k, n, c, j, e, m)
  }

  /** A name from n, white space to the colon at c, the value from j to e, and white space to what follows at m. */
  ghost predicate MemberStands(s: string, i: nat, members: Members, k: nat, n: nat, c: nat, j: nat, e: nat, m: nat)
    requires members.Member?
    decreases members, 0
  {
    && NameStands(s, i, members.name, n, c) && Gap(s, c + 1, j) && Stands(s, j, members.value, e)
    && if members.next.NoMember? then Closing(s, e, m, '}', k)
       else Closing(s, e, m, ',', m + 1) && MembersStand(s, m + 1, members.next, k)
  }

  predicate NameStands(s: string, i: nat, name: string, n: nat, c: nat) {
    && Gap(s, i, n) && At(s, n) == '\"'
    && ParseString(s, n).Ok? && ParseString(s, n).value == name && Gap(s, ParseString(s, n).next, c) && At(s, c) == ':'
  }

  lemma NameIff(s: string, i: nat, name: string, c: nat)
    ensures ParseName(s, i) == Ok(name, c + 1) <==> NameStands(s, i, name, Skip(s, i), c)
    ensures forall n: nat :: NameStands(s, i, name, n, c) ==> n == Skip(s, i) && At(s, n) == '\"' && At(s, c) == ':'
  {
    hide Gap, Skip, ParseString;
    GapIsSkip(s, i, Skip(s, i));
    if ParseString(s, Skip(s, i)).Ok? {
      NameThere(s, Skip(s, i));
      GapIsSkip(s, ParseString(s, Skip(s, i)).next, c);
    }
    forall n: nat | NameStands(s, i, name, n, c)
      ensures n == Skip(s, i)
    {
      GapIsSkip(s, i, n);
    }
  }

  lemma NumberIs(s: string, i: nat)
    ensures ParseNumber(s, i).Ok? && ParseNumber(s, i).value.Number?
  {
  }

  lemma StandsVisible(s: string, i: nat, v: Value, k: nat)
    requires Stands(s, i, v, k)
    ensures !Space(At(s, i)) && At(s, i) != ']' && At(s, i) != '}' && At(s, i) != NUL
  {
    if Here(s, i, "null") {
      HereAt(s, i, "null", 0);
    }
    if Here(s, i, "false") {
      HereAt(s, i, "false", 0);
    }
    if Here(s, i, "true") {
      HereAt(s, i, "true", 0);
    }
  }

  lemma FirstDecides(s: string, i: nat)
    ensures Here(s, i, "null") ==> At(s, i) == 'n'
    ensures Here(s, i, "false") ==> At(s, i) == 'f'
    ensures Here(s, i, "true") ==> At(s, i) == 't'
  {
    if Here(s, i, "null") {
      HereAt(s, i, "null", 0);
    }
    if Here(s, i, "false") {
      HereAt(s, i, "false", 0);
    }
    if Here(s, i, "true") {
      HereAt(s, i, "true", 0);
    }
  }

  // ----- what stands is parsed -----

  lemma {:induction false} StandsParsed(s: string, i: nat, v: Value, k: nat)
    requires Stands(s, i, v, k)
    ensures ParseValue(s, i) == Ok(v, k)
    decreases v, 1
  {
    hide ParseItems, ParseMembers, ParseString, ParseNumber, Here, Skip;
    FirstDecides(s, i);
    match v
    case Array(items) =>
      if items.NoItem? {
        GapIsSkip(s, i + 1, k - 1);
      } else {
        ItemsParsed(s, i + 1, items, k);
      }
    case Object(members) =>
      if members.NoMember? {
        GapIsSkip(s, i + 1, k - 1);
      } else {
        MembersParsed(s, i + 1, members, k);
      }
    case _ =>
  }

  lemma {:induction false} ItemsParsed(s: string, i: nat, items: Items, k: nat)
    requires items.Item? && ItemsStand(s, i, items, k)
    ensures ParseItems(s, i) == Ok(items, k) && ParseItems(s, Skip(s, i)) == Ok(items, k) && At(s, Skip(s, i)) != ']'
    decreases items, 0
  {
    hide ParseItems, ParseValue, Skip, Stands, Gap, At;
    var j: nat, e: nat, m: nat :| FirstStands(s, i, items, k, j, e, m);
    StandsVisible(s, j, items.value, e);
    StandsParsed(s, j, items.value, e);
    GapIsSkip(s, i, j);
    GapIsSkip(s, e, m);
    GapAgain(s, j);
    if items.next.Item? {
      ItemsParsed(s, m + 1, items.next, k);
      JsonGrammar.MoreItems(s, i, items.value, e, items.next, k);
      JsonGrammar.MoreItems(s, j, items.value, e, items.next, k);
    } else {
      JsonGrammar.LastItem(s, i, items.value, e);
      JsonGrammar.LastItem(s, j, items.value, e);
    }
  }

  lemma GapAgain(s: string, j: nat)
    requires !Space(At(s, j))
    ensures Skip(s, j) == j
  {
    GapIsSkip(s, j, j);
  }

  lemma {:induction false} MembersParsed(s: string, i: nat, members: Members, k: nat)
    requires members.Member? && MembersStand(s, i, members, k)
    ensures ParseMembers(s, i) == Ok(members, k) && ParseMembers(s, Skip(s, i)) == Ok(members, k)
    ensures At(s, Skip(s, i)) != '}'
    decreases members, 0
  {
    hide ParseMembers, ParseValue, ParseName, Skip, Stands, NameStands, Gap, At;
    var n: nat, c: nat, j: nat, e: nat, m: nat :| MemberStands(s, i, members, k, n, c, j, e, m);
    StandsVisible(s, j, members.value, e);
    StandsParsed(s, j, members.value, e);
    NameIff(s, i, members.name, c);
    NameAgain(s, i, members.name, n, c);
    GapIsSkip(s, c + 1, j);
    GapIsSkip(s, e, m);
    if members.next.Member? {
      MembersParsed(s, m + 1, members.next, k);
      JsonGrammar.MoreMembers(s, i, members.name, c + 1, members.value, e, members.next, k);
      JsonGrammar.MoreMembers(s, n, members.name, c + 1, members.value, e, members.next, k);
    } else {
      JsonGrammar.LastMember(s, i, members.name, c + 1, members.value, e);
      JsonGrammar.LastMember(s, n, members.name, c + 1, members.value, e);
    }
  }

  // The name may be looked for from where it stands.
  lemma NameAgain(s: string, i: nat, name: string, n: nat, c: nat)
    requires NameStands(s, i, name, n, c)
    ensures n == Skip(s, i) && At(s, n) != '}' && ParseName(s, n) == Ok(name, c + 1)
  {
    hide Skip, ParseString, ParseName;
    NameIff(s, i, name, c);
    GapIsSkip(s, n, n);
    NameIff(s, n, name, c);
  }

  // ----- what is parsed stands there -----

  lemma {:induction false} ParsedStands(s: string, i: nat)
    requires ParseValue(s, i).Ok?
    ensures Stands(s, i, ParseValue(s, i).value, ParseValue(s, i).next)
    decreases |s| - i, 2
  {
    hide ParseItems, ParseMembers, ParseString, ParseNumber, Here, Skip;
    FirstDecides(s, i);
    NumberIs(s, i);
    var j := Skip(s, i + 1);
    GapIsSkip(s, i + 1, j);
    if At(s, i) == '[' {
      if At(s, j) == ']' {
        assert Closed(s, i + 1, ']', j + 1);
      } else {
        ParsedItems(s, j);
        ItemsFrom(s, i + 1, j, ParseItems(s, j).value, ParseItems(s, j).next);
      }
    } else if At(s, i) == '{' {
      if At(s, j) == '}' {
        assert Closed(s, i + 1, '}', j + 1);
      } else {
        ParsedMembers(s, j);
        MembersFrom(s, i + 1, j, ParseMembers(s, j).value, ParseMembers(s, j).next);
      }
    }
  }

  lemma GapJoin(s: string, i: nat, j: nat, n: nat)
    requires Gap(s, i, j) && Gap(s, j, n)
    ensures Gap(s, i, n)
  {
  }

  lemma ItemsFrom(s: string, i: nat, j: nat, items: Items, k: nat)
    requires Gap(s, i, j) && items.Item? && ItemsStand(s, j, items, k)
    ensures ItemsStand(s, i, items, k)
  {
    hide Stands, Gap;
    var n: nat, e: nat, m: nat :| FirstStands(s, j, items, k, n, e, m);
    GapJoin(s, i, j, n);
    assert FirstStands(s, i, items, k, n, e, m);
  }

  lemma MembersFrom(s: string, i: nat, j: nat, members: Members, k: nat)
    requires Gap(s, i, j) && members.Member? && MembersStand(s, j, members, k)
    ensures MembersStand(s, i, members, k)
  {
    hide Stands, Gap, ParseString;
    var n: nat, c: nat, v: nat, e: nat, m: nat :| MemberStands(s, j, members, k, n, c, v, e, m);
    GapJoin(s, i, j, n);
    assert MemberStands(s, i, members, k, n, c, v, e, m);
  }

  lemma {:induction false} ParsedItems(s: string, i: nat)
    requires ParseItems(s, i).Ok?
    ensures ParseItems(s, i).value.Item? && ItemsStand(s, i, ParseItems(s, i).value, ParseItems(s, i).next)
    decreases |s| - i, 3
  {
    hide ParseValue, Skip, Stands;
    var items, k := ParseItems(s, i).value, ParseItems(s, i).next;
    var j := Skip(s, i);
    GapIsSkip(s, i, j);
    ParsedStands(s, j);
    var e := ParseValue(s, j).next;
    var m := Skip(s, e);
    GapIsSkip(s, e, m);
    if At(s, m) == ',' {
      Within(s, m);
      ParsedItems(s, m + 1);
    }
    assert FirstStands(s, i, items, k, j, e, m);
  }

  lemma Within(s: string, m: nat)
    requires At(s, m) != NUL
    ensures m < |s|
  {
  }

  lemma {:induction false} ParsedMembers(s: string, i: nat)
    requires ParseMembers(s, i).Ok?
    ensures ParseMembers(s, i).value.Member? && MembersStand(s, i, ParseMembers(s, i).value, ParseMembers(s, i).next)
    decreases |s| - i, 3
  {
    hide ParseMembers, ParseValue, ParseName, Skip, Stands, NameStands, Gap, At;
    var members, k := ParseMembers(s, i).value, ParseMembers(s, i).next;
    var c, e := MembersParts(s, i);
    NameIff(s, i, members.name, c);
    var j, m := Skip(s, c + 1), Skip(s, e);
    GapIsSkip(s, c + 1, j);
    GapIsSkip(s, e, m);
    ParsedStands(s, j);
    if At(s, m) == ',' {
      ParsedMembers(s, m + 1);
    }
    assert MemberStands(s, i, members, k, Skip(s, i), c, j, e, m);
  }

  // The parts of a member that was parsed: its name and colon, its value, and what follows.
  lemma MembersUnfold(s: string, i: nat)
    requires ParseMembers(s, i).Ok?
    ensures ParseName(s, i).Ok? && ParseValue(s, Skip(s, ParseName(s, i).next)).Ok?
    ensures var r, n, v := ParseMembers(s, i), ParseName(s, i), ParseValue(s, Skip(s, ParseName(s, i).next));
      var m := Skip(s, v.next);
      && r.value.Member? && r.value.name == n.value && r.value.value == v.value
      && (At(s, m) == ',' ==> ParseMembers(s, m + 1) == Ok(r.value.next, r.next))
      && (At(s, m) != ',' ==> At(s, m) == '}' && r.value.next == NoMember && r.next == m + 1)
  {
    hide ParseValue, ParseName, Skip, At;
  }

  lemma MembersParts(s: string, i: nat) returns (c: nat, e: nat)
    requires ParseMembers(s, i).Ok?
    ensures var members, m := ParseMembers(s, i).value, Skip(s, e);
      && members.Member? && i <= c < |s| && ParseName(s, i) == Ok(members.name, c + 1)
      && ParseValue(s, Skip(s, c + 1)) == Ok(members.value, e) && c < e && e <= m < |s|
      && (At(s, m) == ',' ==> ParseMembers(s, m + 1) == Ok(members.next, ParseMembers(s, i).next))
      && (At(s, m) != ',' ==> At(s, m) == '}' && members.next == NoMember && ParseMembers(s, i).next == m + 1)
      && (At(s, m) == ',' ==> members.next.Member?)
  {
    hide ParseMembers, ParseValue, ParseName, NameStands;
    MembersUnfold(s, i);
    c := ParseName(s, i).next - 1;
    NameIff(s, i, ParseName(s, i).value, c);
    Within(s, c);
    e := ParseValue(s, Skip(s, c + 1)).next;
    Within(s, Skip(s, e));
    if At(s, Skip(s, e)) == ',' {
      SomeMember(s, Skip(s, e) + 1);
    }
  }

  lemma SomeMember(s: string, i: nat)
    requires ParseMembers(s, i).Ok?
    ensures ParseMembers(s, i).value.Member?
  {
    hide ParseValue, ParseName;
  }

  lemma NameThere(s: string, n: nat)
    requires ParseString(s, n).Ok?
    ensures At(s, n) == '\"'
  {
  }

  /** The parser reads a value at i up to k exactly if it stands there. */
  lemma ParsedIff(s: string, i: nat, v: Value, k: nat)
    ensures ParseValue(s, i) == Ok(v, k) <==> Stands(s, i, v, k)
  {
    hide ParseValue, Stands;
    if ParseValue(s, i).Ok? {
      ParsedStands(s, i);
    }
    if Stands(s, i, v, k) {
      StandsParsed(s, i, v, k);
    }
  }
}
