/** The parser of cjson.h: moving pointers over the text. */
module JsonReader {
  import opened JsonText
  import opened JsonValue
  import opened JsonParse

  method ReadString(s: string, start: nat) returns (r: Parsed<string>)
    ensures r == ParseString(s, start)
  {
    hide Unescape;
    if At(s, start) != '\"' {
      return Err(start);
    }
    var out, i := "", start + 1;
    assert out + Chars(s, i).0 == Chars(s, i).0;
    while At(s, i) != '\"' && At(s, i) != NUL
      invariant (out + Chars(s, i).0, Chars(s, i).1) == Chars(s, start + 1)
      decreases |s| - i
    {
      hide Chars;
      CharsOne(s, i);
      var c := Unescape(s, i);
      assert out + (c.0 + Chars(s, c.1).0) == out + c.0 + Chars(s, c.1).0;
      out, i := out + c.0, c.1;
    }
    assert out + "" == out;
    r := Ok(out, if At(s, i) == '\"' then i + 1 else i);
  }

  method Accumulate(s: string, start: nat, from: nat) returns (n: nat, i: nat)
    ensures (n, i) == ReadDigits(s, start, from)
  {
    n, i := from, start;
    while Digit(At(s, i))
      invariant ReadDigits(s, i, n) == ReadDigits(s, start, from)
      decreases |s| - i
    {
      n, i := n * 10 + (At(s, i) as int - '0' as int), i + 1;
    }
  }

  method ReadExponent(s: string, start: nat) returns (exponent: int, i: nat)
    ensures (exponent, i) == Exponent(s, start)
  {
    exponent, i := 0, start;
    if At(s, i) == 'e' || At(s, i) == 'E' {
      i := i + 1;
      var negative := At(s, i) == '-';
      if At(s, i) == '+' || At(s, i) == '-' {
        i := i + 1;
      }
      exponent, i := Accumulate(s, i, 0);
      exponent := Signed(negative, exponent);
    }
  }

  method ReadNumber(s: string, start: nat) returns (r: Parsed<Value>)
    ensures r == ParseNumber(s, start)
  {
    hide ReadDigits, Exponent;
    var i: nat, n: nat, scale: int := start, 0, 0;
    if At(s, i) == '-' {
      i := i + 1;
    }
    if At(s, i) == '0' {
      i := i + 1;
    }
    if '1' <= At(s, i) <= '9' {
      n, i := Accumulate(s, i, 0);
    }
    if At(s, i) == '.' && Digit(At(s, i + 1)) {
      var point := i;
      n, i := Accumulate(s, i + 1, n);
      scale := point + 1 - i;
    }
    var exponent;
    exponent, i := ReadExponent(s, i);
    r := Ok(Number(Signed(At(s, start) == '-', n), scale + exponent), i);
  }

  /** Appending a new item behind the last child. */
  function Append(items: Items, v: Value): Items {
    if items.NoItem? then Item(v, NoItem) else Item(items.value, Append(items.next, v))
  }

  function Concat(items: Items, more: Items): Items {
    if items.NoItem? then more else Item(items.value, Concat(items.next, more))
  }

  lemma {:induction false} AppendConcat(items: Items, v: Value, more: Items)
    ensures Concat(Append(items, v), more) == Concat(items, Item(v, more))
    decreases items
  {
    if items.Item? {
      AppendConcat(items.next, v, more);
    }
  }

  lemma {:induction false} ConcatNone(items: Items)
    ensures Concat(items, NoItem) == items
  {
    if items.Item? {
      ConcatNone(items.next);
    }
  }

  /** What the loop over a list still reads when it stands behind a value at j. */
  ghost function MoreItems(s: string, j: nat): Parsed<Items> {
    if At(s, j) == ',' then ParseItems(s, j + 1)
    else if At(s, j) == ']' then Ok(NoItem, j + 1)
    else Err(j)
  }

  ghost function Onto(items: Items, r: Parsed<Items>): Parsed<Items> {
    if r.Ok? then Ok(Concat(items, r.value), r.next) else r
  }

  // The list read so far and a value.
  lemma OneMore(s: string, i: nat, items: Items)
    ensures var v := ParseValue(s, Skip(s, i));
      Onto(items, ParseItems(s, i)) ==
        if v.Ok? then Onto(Append(items, v.value), MoreItems(s, Skip(s, v.next))) else Err(v.at)
  {
    hide ParseValue;
    var v := ParseValue(s, Skip(s, i));
    if v.Ok? && MoreItems(s, Skip(s, v.next)).Ok? {
      AppendConcat(items, v.value, MoreItems(s, Skip(s, v.next)).value);
    }
  }

  method ReadValue(s: string, i: nat) returns (r: Parsed<Value>)
    ensures r == ParseValue(s, i)
    decreases |s| - i, 1
  {
    if Here(s, i, "null") {
      r := Ok(Null, i + 4);
    } else if Here(s, i, "false") {
      r := Ok(False, i + 5);
    } else if Here(s, i, "true") {
      r := Ok(True, i + 4);
    } else if At(s, i) == '\"' {
      var t := ReadString(s, i);
      r := Ok(String(t.value), t.next);
    } else if At(s, i) == '-' || Digit(At(s, i)) {
      r := ReadNumber(s, i);
    } else if At(s, i) == '[' {
      r := ReadArray(s, i);
    } else if At(s, i) == '{' {
      r := ReadObject(s, i);
    } else {
      r := Err(i);
    }
  }

  method ReadArray(s: string, start: nat) returns (r: Parsed<Value>)
    requires At(s, start) == '['
    ensures r == ParseArray(s, start)
    decreases |s| - start, 0
  {
    hide ParseItems;
    var i := SkipSpace(s, start + 1);
    if At(s, i) == ']' {
      return Ok(Array(NoItem), i + 1);
    }
    var items := ReadItems(s, i);
    r := if items.Ok? then Ok(Array(items.value), items.next) else Err(items.at);
  }

  /** The loop over the items: a new child is linked behind the last one for every comma. */
  method ReadItems(s: string, first: nat) returns (r: Parsed<Items>)
    requires first <= |s|
    ensures r == ParseItems(s, first)
    decreases |s| - first, 2
  {
    hide ParseItems;
    var i := SkipSpace(s, first);
    var v := ReadValue(s, i);
    OneMore(s, first, NoItem);
    if v.Err? {
      return Err(v.at);
    }
    var items := Append(NoItem, v.value);
    i := SkipSpace(s, v.next);
    while At(s, i) == ','
      invariant first < i && Onto(items, MoreItems(s, i)) == Onto(NoItem, ParseItems(s, first))
      decreases |s| - i
    {
      OneMore(s, i + 1, items);
      i := SkipSpace(s, i + 1);
      v := ReadValue(s, i);
      if v.Err? {
        return Err(v.at);
      }
      items := Append(items, v.value);
      i := SkipSpace(s, v.next);
    }
    ConcatNone(items);
    r := if At(s, i) == ']' then Ok(items, i + 1) else Err(i);
  }

  function AppendMember(members: Members, name: string, v: Value): Members {
    if members.NoMember? then Member(name, v, NoMember)
    else Member(members.name, members.value, AppendMember(members.next, name, v))
  }

  function ConcatMembers(members: Members, more: Members): Members {
    if members.NoMember? then more else Member(members.name, members.value, ConcatMembers(members.next, more))
  }

  lemma {:induction false} AppendConcatMembers(members: Members, name: string, v: Value, more: Members)
    ensures ConcatMembers(AppendMember(members, name, v), more) == ConcatMembers(members, Member(name, v, more))
    decreases members
  {
    if members.Member? {
      AppendConcatMembers(members.next, name, v, more);
    }
  }

  lemma {:induction false} ConcatNoMember(members: Members)
    ensures ConcatMembers(members, NoMember) == members
  {
    if members.Member? {
      ConcatNoMember(members.next);
    }
  }

  ghost function MoreMembers(s: string, j: nat): Parsed<Members> {
    if At(s, j) == ',' then ParseMembers(s, j + 1)
    else if At(s, j) == '}' then Ok(NoMember, j + 1)
    else Err(j)
  }

  ghost function OntoMembers(members: Members, r: Parsed<Members>): Parsed<Members> {
    if r.Ok? then Ok(ConcatMembers(members, r.value), r.next) else r
  }

  lemma OneMoreMember(s: string, i: nat, members: Members)
    requires ParseName(s, i).Ok?
    ensures var name := ParseName(s, i);
      var v := ParseValue(s, Skip(s, name.next));
      OntoMembers(members, ParseMembers(s, i))
      == if v.Ok? then OntoMembers(AppendMember(members, name.value, v.value), MoreMembers(s, Skip(s, v.next)))
        else Err(v.at)
  {
    hide ParseValue, ParseName;
    var name := ParseName(s, i);
    var v := ParseValue(s, Skip(s, name.next));
    if v.Ok? && MoreMembers(s, Skip(s, v.next)).Ok? {
      AppendConcatMembers(members, name.value, v.value, MoreMembers(s, Skip(s, v.next)).value);
    }
  }

  method ReadName(s: string, start: nat) returns (r: Parsed<string>)
    ensures r == ParseName(s, start)
  {
    var i := SkipSpace(s, start);
    r := ReadString(s, i);
    if r.Ok? {
      i := SkipSpace(s, r.next);
      r := if At(s, i) == ':' then Ok(r.value, i + 1) else Err(i);
    }
  }

  method ReadObject(s: string, start: nat) returns (r: Parsed<Value>)
    requires At(s, start) == '{'
    ensures r == ParseObject(s, start)
    decreases |s| - start, 0
  {
    hide ParseMembers;
    var i := SkipSpace(s, start + 1);
    if At(s, i) == '}' {
      return Ok(Object(NoMember), i + 1);
    }
    var members := ReadMembers(s, i);
    r := if members.Ok? then Ok(Object(members.value), members.next) else Err(members.at);
  }

  method ReadMembers(s: string, first: nat) returns (r: Parsed<Members>)
    requires first <= |s|
    ensures r == ParseMembers(s, first)
    decreases |s| - first, 2
  {
    hide ParseMembers, ParseName;
    var name := ReadName(s, first);
    if name.Err? {
      FailedName(s, first);
      return Err(name.at);
    }
    OneMoreMember(s, first, NoMember);
    var i := SkipSpace(s, name.next);
    var v := ReadValue(s, i);
    if v.Err? {
      return Err(v.at);
    }
    var members := AppendMember(NoMember, name.value, v.value);
    i := SkipSpace(s, v.next);
    while At(s, i) == ','
      invariant first < i && OntoMembers(members, MoreMembers(s, i)) == OntoMembers(NoMember, ParseMembers(s, first))
      decreases |s| - i
    {
      name := ReadName(s, i + 1);
      if name.Err? {
        FailedName(s, i + 1);
        return Err(name.at);
      }
      OneMoreMember(s, i + 1, members);
      i := SkipSpace(s, name.next);
      v := ReadValue(s, i);
      if v.Err? {
        return Err(v.at);
      }
      members := AppendMember(members, name.value, v.value);
      i := SkipSpace(s, v.next);
    }
    ConcatNoMember(members);
    r := if At(s, i) == '}' then Ok(members, i + 1) else Err(i);
  }

  lemma FailedName(s: string, i: nat)
    requires ParseName(s, i).Err?
    ensures ParseMembers(s, i) == Err(ParseName(s, i).at)
  {
    hide ParseName;
  }
}
