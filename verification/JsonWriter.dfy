/** The printer of cjson.h: it counts the length it needs, allocates a buffer of that size and writes
    through a moving pointer. Every write is checked against the allocated size. */
module JsonWriter {
  import opened JsonText
  import opened JsonValue
  import opened JsonPrint

  /** The first ptr characters of the buffer are w. */
  ghost predicate Written(out: array<char>, ptr: nat, w: string)
    reads out
  {
    ptr == |w| <= out.Length && out[..ptr] == w
  }

  method Put(out: array<char>, ptr: nat, c: char, ghost w: string)
    requires Written(out, ptr, w) && ptr < out.Length
    modifies out
    ensures Written(out, ptr + 1, w + [c])
  {
    out[ptr] := c;
    assert out[..ptr + 1] == out[..ptr] + [c];
  }

  /** The last character and the terminator; the result is what the buffer holds. */
  method Finish(out: array<char>, ptr: nat, c: char, ghost w: string) returns (text: string)
    requires Written(out, ptr, w) && ptr + 1 < out.Length
    modifies out
    ensures text == w + [c]
  {
    Put(out, ptr, c, w);
    Put(out, ptr + 1, NUL, w + [c]);
    assert out[..ptr + 1] == out[..ptr + 2][..ptr + 1];
    text := out[..ptr + 1];
  }

  /** strcpy: the terminator needs room as well. */
  method StrCpy(out: array<char>, ptr: nat, text: string, ghost w: string)
    requires Written(out, ptr, w) && ptr + |text| < out.Length
    modifies out
    ensures Written(out, ptr + |text|, w + text)
  {
    assert text[..0] == "" && w + "" == w;
    for i := 0 to |text|
      invariant Written(out, ptr + i, w + text[..i])
    {
      Put(out, ptr + i, text[i], w + text[..i]);
      assert w + text[..i] + [text[i]] == w + text[..i + 1];
    }
    assert text[..|text|] == text;
    out[ptr + |text|] := NUL;
  }

  method PutTabs(out: array<char>, ptr: nat, n: int, ghost w: string)
    requires Written(out, ptr, w) && ptr + |Tabs(n)| <= out.Length
    modifies out
    ensures Written(out, ptr + |Tabs(n)|, w + Tabs(n))
  {
    var j := 0;
    assert w + Tabs(0) == w;
    while j < n
      invariant 0 <= j <= |Tabs(n)| && Written(out, ptr + j, w + Tabs(j))
    {
      Put(out, ptr + j, '\t', w + Tabs(j));
      assert w + Tabs(j) + ['\t'] == w + Tabs(j + 1);
      j := j + 1;
    }
    assert Tabs(j) == Tabs(n);
  }

  // ----- strings -----

  method StringLength(str: string) returns (len: nat)
    ensures len == |Escaped(str)|
  {
    len := 0;
    assert str[0..] == str;
    for i := 0 to |str|
      invariant len + |Escaped(str[i..])| == |Escaped(str)|
    {
      var token := str[i];
      assert Escaped(str[i..]) == Escape(token) + Escaped(str[i + 1..]) by {
        assert str[i..][1..] == str[i + 1..];
      }
      len := len + 1;
      if token in {'\"', '\\', 8 as char, 12 as char, '\n', '\r', '\t'} {
        len := len + 1;
      } else if token as int < 32 {
        len := len + 5;
      }
    }
  }

  method PutEscaped(out: array<char>, ptr: nat, c: char, ghost w: string)
    requires Written(out, ptr, w) && ptr + |Escape(c)| < out.Length
    modifies out
    ensures Written(out, ptr + |Escape(c)|, w + Escape(c))
  {
    if c as int > 31 && c != '\"' && c != '\\' {
      Put(out, ptr, c, w);
    } else {
      Put(out, ptr, '\\', w);
      if c in {'\"', '\\', 8 as char, 12 as char, '\n', '\r', '\t'} {
        Put(out, ptr + 1, Escape(c)[1], w + ['\\']);
        assert w + ['\\'] + [Escape(c)[1]] == w + Escape(c);
      } else {
        StrCpy(out, ptr + 1, Escape(c)[1..], w + ['\\']);
        assert w + ['\\'] + Escape(c)[1..] == w + Escape(c);
      }
    }
  }

  lemma EscapedFrom(str: string, i: nat)
    requires i < |str|
    ensures Escaped(str[i..]) == Escape(str[i]) + Escaped(str[i + 1..])
  {
    assert str[i..][1..] == str[i + 1..];
  }

  method PutChars(out: array<char>, str: string) returns (ptr: nat)
    requires Written(out, 1, "\"") && |Escaped(str)| + 3 == out.Length
    modifies out
    ensures Written(out, ptr, "\"" + Escaped(str))
  {
    hide Escape, Escaped;
    ghost var w := "\"";
    ptr := 1;
    assert str[0..] == str;
    for i := 0 to |str|
      invariant Written(out, ptr, w) && w + Escaped(str[i..]) == "\"" + Escaped(str)
    {
      ghost var e := Escape(str[i]);
      EscapedFrom(str, i);
      assert w + (e + Escaped(str[i + 1..])) == w + e + Escaped(str[i + 1..]);
      PutEscaped(out, ptr, str[i], w);
      w, ptr := w + e, ptr + |Escape(str[i])|;
    }
    assert w + Escaped("") == w && str[|str|..] == "" by {
      EscapedNone();
    }
  }

  lemma EscapedNone()
    ensures Escaped("") == ""
  {
  }

  /** print_string_ptr: the counted length and three more characters are exactly enough. */
  method WriteString(str: string) returns (text: string)
    requires Terminated(str)
    ensures text == Quoted(str)
  {
    hide Escaped;
    var len := StringLength(str);
    var out := new char[len + 3];
    Put(out, 0, '\"', "");
    assert "" + ['\"'] == "\"";
    var ptr := PutChars(out, str);
    text := Finish(out, ptr, '\"', "\"" + Escaped(str));
  }

  // ----- numbers -----

  function Power10(k: nat): nat {
    if k == 0 then 1 else 10 * Power10(k - 1)
  }

  lemma {:induction false} DigitsFit(n: nat, k: nat)
    requires n < Power10(k) && k > 0
    ensures |Digits(n)| <= k
    decreases k
  {
    if n >= 10 {
      DigitsFit(n / 10, k - 1);
    }
  }

  /** print_number on a 32-bit integer: 21 characters are enough. */
  method WriteNumber(n: int) returns (text: string)
    requires INT_MIN <= n <= INT_MAX
    ensures text == Decimal(n)
  {
    var out := new char[21];
    assert Power10(10) == 10000000000 by {
      assert Power10(5) == 100000;
    }
    DigitsFit(if n < 0 then -n else n, 10);
    StrCpy(out, 0, Decimal(n), "");
    assert "" + Decimal(n) == Decimal(n);
    text := out[..|Decimal(n)|];
  }

  // ----- arrays -----

  /** The printed items, one buffer each. */
  ghost function Texts(items: Items, depth: nat, fmt: bool): seq<string>
    requires PlainItems(items)
  {
    if items.NoItem? then [] else [Print(items.value, depth, fmt)] + Texts(items.next, depth, fmt)
  }

  /** What the printer counts for the items of an array. */
  ghost function ItemsNeed(items: Items, depth: nat, fmt: bool): nat
    requires PlainItems(items)
  {
    if items.NoItem? then 0
    else |Print(items.value, depth, fmt)| + 2 + (if fmt then 1 else 0) + ItemsNeed(items.next, depth, fmt)
  }

  ghost function Rest(items: Items, depth: nat, fmt: bool): string
    requires PlainItems(items)
  {
    if items.NoItem? then "" else PrintItems(items, depth, fmt)
  }

  method WriteValue(v: Value, depth: nat, fmt: bool) returns (text: string)
    requires Plain(v)
    ensures text == Print(v, depth, fmt)
    decreases v, 2
  {
    match v
    case Null => text := "null";
    case False => text := "false";
    case True => text := "true";
    case Number(n, _) => text := WriteNumber(n);
    case String(s) => text := WriteString(s);
    case Array(items) => text := WriteArray(items, depth, fmt);
    case Object(members) => text := WriteObject(members, depth, fmt);
  }

  lemma OneText(items: Items, depth: nat, fmt: bool, entries: seq<string>)
    requires items.Item? && PlainItems(items)
    ensures entries + Texts(items, depth, fmt) ==
      entries + [Print(items.value, depth, fmt)] + Texts(items.next, depth, fmt)
  {
    hide Print;
  }

  /** Retrieve all the results, and count. */
  method ItemTexts(items: Items, depth: nat, fmt: bool) returns (entries: seq<string>, len: nat)
    requires PlainItems(items)
    ensures entries == Texts(items, depth, fmt) && len == 5 + ItemsNeed(items, depth, fmt)
    decreases items, 0
  {
    hide Print;
    entries, len := [], 5;
    var child := items;
    while child.Item?
      invariant PlainItems(child) && (child == items || child < items)
      invariant entries + Texts(child, depth, fmt) == Texts(items, depth, fmt)
      invariant len + ItemsNeed(child, depth, fmt) == 5 + ItemsNeed(items, depth, fmt)
      decreases child
    {
      hide Texts;
      var ret := WriteValue(child.value, depth, fmt);
      OneText(child, depth, fmt, entries);
      entries := entries + [ret];
      len := len + |ret| + 2 + if fmt then 1 else 0;
      child := child.next;
    }
  }

  method WriteArray(items: Items, depth: nat, fmt: bool) returns (text: string)
    requires PlainItems(items)
    ensures text == Print(Array(items), depth, fmt)
    decreases items, 1
  {
    if items.NoItem? {
      var out := new char[3];
      StrCpy(out, 0, "[]", "");
      assert "" + "[]" == "[]";
      return out[..2];
    }
    hide Print;
    var entries, len := ItemTexts(items, depth + 1, fmt);
    var out := new char[len];
    ghost var w, rest := "[", items;
    Put(out, 0, '[', "");
    var ptr: nat := 1;
    assert entries[0..] == entries;
    for i := 0 to |entries|
      invariant PlainItems(rest) && entries[i..] == Texts(rest, depth + 1, fmt)
      invariant Written(out, ptr, w) && w + Rest(rest, depth + 1, fmt) == "[" + PrintItems(items, depth + 1, fmt)
      invariant ptr + ItemsNeed(rest, depth + 1, fmt) <= 1 + ItemsNeed(items, depth + 1, fmt)
    {
      ptr, w := PutItem(out, ptr, entries[i], i == |entries| - 1, fmt, w, rest, depth + 1);
      assert entries[i + 1..] == entries[i..][1..];
      rest := rest.next;
    }
    assert w + "" == w;
    text := Finish(out, ptr, ']', w);
    PrintArray(items, depth, fmt);
  }

  lemma PrintArray(items: Items, depth: nat, fmt: bool)
    requires items.Item? && PlainItems(items)
    ensures Print(Array(items), depth, fmt) == "[" + PrintItems(items, depth + 1, fmt) + "]"
  {
  }

  method PutItem(out: array<char>, start: nat, entry: string, last: bool, fmt: bool, ghost w: string,
                 ghost rest: Items, ghost depth: nat)
    returns (ptr: nat, ghost w': string)
    requires rest.Item? && PlainItems(rest) && entry == Print(rest.value, depth, fmt) && (last <==> rest.next.NoItem?)
    requires Written(out, start, w) && start + ItemsNeed(rest, depth, fmt) < out.Length
    modifies out
    ensures Written(out, ptr, w') && w' + Rest(rest.next, depth, fmt) == w + Rest(rest, depth, fmt)
    ensures ptr + ItemsNeed(rest.next, depth, fmt) <= start + ItemsNeed(rest, depth, fmt)
  {
    hide Print;
    StrCpy(out, start, entry, w);
    ptr, w' := start + |entry|, w + entry;
    if !last {
      Put(out, ptr, ',', w');
      ptr, w' := ptr + 1, w' + [','];
      if fmt {
        Put(out, ptr, ' ', w');
        ptr, w' := ptr + 1, w' + [' '];
      }
    }
  }

  // ----- objects -----

  ghost function Names(members: Members): seq<string> {
    if members.NoMember? then [] else [Quoted(members.name)] + Names(members.next)
  }

  ghost function Values(members: Members, depth: nat, fmt: bool): seq<string>
    requires PlainMembers(members)
  {
    if members.NoMember? then [] else [Print(members.value, depth, fmt)] + Values(members.next, depth, fmt)
  }

  /** What the printer counts for the members of an object. */
  ghost function MembersNeed(members: Members, depth: nat, fmt: bool): nat
    requires PlainMembers(members)
  {
    if members.NoMember? then 0
    else
      |Print(members.value, depth, fmt)| + |Quoted(members.name)| + 2 + (if fmt then 2 + depth else 0)
      + MembersNeed(members.next, depth, fmt)
  }

  /** Collect all the results into the two arrays, and count. */
  method MemberTexts(members: Members, depth: nat, fmt: bool)
    returns (names: seq<string>, entries: seq<string>, len: nat)
    requires PlainMembers(members)
    ensures names == Names(members) && entries == Values(members, depth, fmt) && |names| == |entries|
    ensures len == 7 + (if fmt then depth else 0) + MembersNeed(members, depth, fmt)
    decreases members, 0
  {
    hide Print, Quoted;
    names, entries := [], [];
    len := 7 + if fmt then depth else 0;
    ghost var total := len + MembersNeed(members, depth, fmt);
    var child := members;
    while child.Member?
      invariant PlainMembers(child) && (child == members || child < members) && |names| == |entries|
      invariant names + Names(child) == Names(members) &&
        entries + Values(child, depth, fmt) == Values(members, depth, fmt)
      invariant len + MembersNeed(child, depth, fmt) == total
      decreases child
    {
      var str := WriteString(child.name);
      var ret := WriteValue(child.value, depth, fmt);
      assert names + ([str] + Names(child.next)) == names + [str] + Names(child.next);
      assert entries + ([ret] + Values(child.next, depth, fmt)) == entries + [ret] + Values(child.next, depth, fmt);
      names, entries := names + [str], entries + [ret];
      len := len + |ret| + |str| + 2 + if fmt then 2 + depth else 0;
      child := child.next;
    }
  }

  lemma PrintEmpty(depth: nat, fmt: bool)
    ensures Print(Object(NoMember), depth, fmt) == "{" + (if fmt then "\n" + Tabs(depth - 1) else "") + "}"
  {
  }

  method WriteEmpty(depth: nat, fmt: bool) returns (text: string)
    ensures text == Print(Object(NoMember), depth, fmt)
  {
    hide Print;
    var out := new char[if fmt then depth + 4 else 3];
    ghost var w := "{";
    Put(out, 0, '{', "");
    var ptr: nat := 1;
    if fmt {
      Put(out, 1, '\n', w);
      PutTabs(out, 2, depth - 1, w + ['\n']);
      w, ptr := w + ['\n'] + Tabs(depth - 1), 2 + |Tabs(depth - 1)|;
    }
    text := Finish(out, ptr, '}', w);
    PrintEmpty(depth, fmt);
  }

  method PutLabel(out: array<char>, start: nat, name: string, depth: nat, fmt: bool, ghost w: string, ghost key: string)
    returns (ptr: nat)
    requires Written(out, start, w) && name == Quoted(key)
    requires start + |name| + 1 + (if fmt then 1 + depth else 0) < out.Length
    modifies out
    ensures Written(out, ptr, w + Label(key, depth, fmt)) && ptr == start + |name| + 1 + (if fmt then 1 + depth else 0)
  {
    hide Quoted;
    ghost var w' := w;
    ptr := start;
    if fmt {
      PutTabs(out, ptr, depth, w);
      w', ptr := w' + Tabs(depth), ptr + |Tabs(depth)|;
    }
    StrCpy(out, ptr, name, w');
    w', ptr := w' + name, ptr + |name|;
    Put(out, ptr, ':', w');
    w', ptr := w' + [':'], ptr + 1;
    if fmt {
      Put(out, ptr, '\t', w');
      w', ptr := w' + ['\t'], ptr + 1;
    }
    assert w' == w + Label(key, depth, fmt);
  }

  method PutAfter(out: array<char>, start: nat, last: bool, fmt: bool, ghost w: string) returns (ptr: nat)
    requires Written(out, start, w) && start + 2 < out.Length
    modifies out
    ensures Written(out, ptr, w + After(last, fmt)) && ptr <= start + 1 + (if fmt then 1 else 0)
  {
    ghost var w' := w;
    ptr := start;
    if !last {
      Put(out, ptr, ',', w');
      w', ptr := w' + [','], ptr + 1;
    }
    if fmt {
      Put(out, ptr, '\n', w');
      w', ptr := w' + ['\n'], ptr + 1;
    }
    assert w' == w + After(last, fmt);
  }

  method PutMember(out: array<char>, start: nat, name: string, entry: string, last: bool, depth: nat, fmt: bool,
                   ghost w: string, ghost rest: Members)
    returns (ptr: nat, ghost w': string)
    requires rest.Member? && PlainMembers(rest) && name == Quoted(rest.name) && entry == Print(rest.value, depth, fmt)
    requires last <==> rest.next.NoMember?
    requires Written(out, start, w) && start + MembersNeed(rest, depth, fmt) + 2 < out.Length
    modifies out
    ensures Written(out, ptr, w') && w' + PrintMembers(rest.next, depth, fmt) == w + PrintMembers(rest, depth, fmt)
    ensures ptr + MembersNeed(rest.next, depth, fmt) <= start + MembersNeed(rest, depth, fmt)
  {
    hide Print, Label, After, Quoted;
    ptr := PutLabel(out, start, name, depth, fmt, w, rest.name);
    w' := w + Label(rest.name, depth, fmt);
    StrCpy(out, ptr, entry, w');
    w', ptr := w' + entry, ptr + |entry|;
    ptr := PutAfter(out, ptr, last, fmt, w');
    w' := w' + After(last, fmt);
  }

  lemma PrintObject(members: Members, depth: nat, fmt: bool)
    requires members.Member? && PlainMembers(members)
    ensures Print(Object(members), depth, fmt)
      == "{" + (if fmt then "\n" else "") + PrintMembers(members, depth + 1, fmt) +
        (if fmt then Tabs(depth) else "") + "}"
  {
  }

  method PutMembers(out: array<char>, start: nat, names: seq<string>, entries: seq<string>, depth: nat, fmt: bool,
                    ghost w: string, ghost members: Members)
    returns (ptr: nat)
    requires PlainMembers(members) && |names| == |entries|
    requires names == Names(members) && entries == Values(members, depth, fmt)
    requires Written(out, start, w) && start + MembersNeed(members, depth, fmt) + 2 < out.Length
    modifies out
    ensures Written(out, ptr, w + PrintMembers(members, depth, fmt)) && ptr <= start + MembersNeed(members, depth, fmt)
  {
    hide Print, Quoted, MembersNeed;
    ghost var rest, w' := members, w;
    ptr := start;
    assert names[0..] == names && entries[0..] == entries;
    for i := 0 to |entries|
      invariant PlainMembers(rest) && names[i..] == Names(rest) && entries[i..] == Values(rest, depth, fmt)
      invariant Written(out, ptr, w') && w' + PrintMembers(rest, depth, fmt) == w + PrintMembers(members, depth, fmt)
      invariant ptr + MembersNeed(rest, depth, fmt) <= start + MembersNeed(members, depth, fmt)
    {
      ptr, w' := PutMember(out, ptr, names[i], entries[i], i == |entries| - 1, depth, fmt, w', rest);
      assert names[i + 1..] == names[i..][1..] && entries[i + 1..] == entries[i..][1..];
      rest := rest.next;
    }
    assert w' + "" == w';
  }

  method WriteObject(members: Members, depth: nat, fmt: bool) returns (text: string)
    requires PlainMembers(members)
    ensures text == Print(Object(members), depth, fmt)
    decreases members, 1
  {
    hide Print, PrintMembers, MembersNeed;
    if members.NoMember? {
      text := WriteEmpty(depth, fmt);
      return;
    }
    var names, entries, len := MemberTexts(members, depth + 1, fmt);
    var out := new char[len];
    ghost var w := "{" + (if fmt then "\n" else "");
    Put(out, 0, '{', "");
    var ptr: nat := 1;
    if fmt {
      Put(out, 1, '\n', "{");
      ptr := 2;
    }
    ptr := PutMembers(out, ptr, names, entries, depth + 1, fmt, w, members);
    w := w + PrintMembers(members, depth + 1, fmt);
    if fmt {
      PutTabs(out, ptr, depth, w);
      w, ptr := w + Tabs(depth), ptr + |Tabs(depth)|;
    }
    text := Finish(out, ptr, '}', w);
    PrintObject(members, depth, fmt);
  }
}
