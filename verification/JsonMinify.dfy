/** cJSON_Minify: white space and comments go, strings stay. */
module JsonMinify {
  import opened JsonText
  import opened JsonValue
  import opened JsonPrint

  /** Where a double-slash comment ends: the line feed stays to be read. */
  function LineEnd(s: string, i: nat): (e: nat)
    ensures i <= e
    decreases |s| - i
  {
    if At(s, i) == NUL || At(s, i) == '\n' then i else LineEnd(s, i + 1)
  }

  /** The closing star of a comment, searched for from its opening slash on. */
  function StarEnd(s: string, i: nat): (e: nat)
    ensures i <= e
    decreases |s| - i
  {
    if At(s, i) == NUL || (At(s, i) == '*' && At(s, i + 1) == '/') then i else StarEnd(s, i + 1)
  }

  /** The closing quote of a string whose content starts at i; a backslash takes the next character along. */
  function QuoteEnd(s: string, i: nat): (e: nat)
    ensures i <= e
    decreases |s| - i
  {
    if At(s, i) == NUL || At(s, i) == '\"' then i
    else if s[i] == '\\' then QuoteEnd(s, i + 2)
    else QuoteEnd(s, i + 1)
  }

  predicate Dropped(c: char) {
    c == ' ' || c == '\t' || c == '\r' || c == '\n'
  }

  /** What the loop does at i: where it goes on and what it writes. */
  function Turn(s: string, i: nat): (t: (nat, string))
    requires i < |s|
    ensures i < t.0
  {
    if Dropped(s[i]) then (i + 1, "")
    else if s[i] == '/' && At(s, i + 1) == '/' then (LineEnd(s, i + 1), "")
    else if s[i] == '/' && At(s, i + 1) == '*' then (StarEnd(s, i) + 2, "")
    else if s[i] != '\"' then (i + 1, [s[i]])
    else
      var e := QuoteEnd(s, i + 1);
      if e < |s| then (e + 1, s[i..e + 1]) else (e + 1, s[i..])
  }

  /** What is written for the text from i on. */
  function Minified(s: string, i: nat): string
    decreases |s| - i
  {
    if i >= |s| then "" else Turn(s, i).1 + Minified(s, Turn(s, i).0)
  }

  /** No comment or string is left open at the end of the text. */
  predicate Closed(s: string, i: nat)
    decreases |s| - i
  {
    if i >= |s| then i == |s| else Ended(s, i) && Closed(s, Turn(s, i).0)
  }

  /** The comment or string at i, if any, has an end. */
  predicate Ended(s: string, i: nat)
    requires i < |s|
  {
    && (s[i] == '/' && At(s, i + 1) == '*' ==> StarEnd(s, i) < |s|)
    && (s[i] == '\"' ==> QuoteEnd(s, i + 1) < |s|)
  }

  /** Where the loop stands after k turns; a position beyond the terminator is not read from. */
  function Position(s: string, k: nat): (i: nat) {
    if k == 0 then 0
    else
      var i := Position(s, k - 1);
      if i < |s| then Turn(s, i).0 else i
  }

  lemma LineEndInside(s: string, i: nat)
    requires i <= |s|
    ensures LineEnd(s, i) <= |s|
    decreases |s| - i
  {
  }

  /** A turn leaves the text exactly if what it reads has no end. */
  lemma EndedIff(s: string, i: nat)
    requires i < |s| && Terminated(s)
    ensures Ended(s, i) <==> Turn(s, i).0 <= |s|
  {
    LineEndInside(s, i + 1);
    StarEndIs(s, i);
  }

  lemma StarEndIs(s: string, i: nat)
    requires Terminated(s)
    ensures StarEnd(s, i) < |s| ==> At(s, StarEnd(s, i) + 1) == '/'
    decreases |s| - i
  {
    if i < |s| && !(At(s, i) == '*' && At(s, i + 1) == '/') {
      StarEndIs(s, i + 1);
    }
  }

  lemma {:induction false} PositionsInside(s: string, k: nat)
    requires Terminated(s) && Closed(s, 0)
    ensures Position(s, k) <= |s| && Closed(s, Position(s, k))
  {
    if k > 0 {
      PositionsInside(s, k - 1);
      if Position(s, k - 1) < |s| {
        EndedIff(s, Position(s, k - 1));
      }
    }
  }

  /** The turn after the first k ones starts in the text and ends past its terminator. */
  ghost predicate LeavesAt(s: string, k: nat) {
    Position(s, k) < |s| < Position(s, k + 1)
  }

  lemma {:induction false} Leaves(s: string, k: nat) returns (j: nat)
    requires Terminated(s) && Position(s, k) <= |s| && !Closed(s, Position(s, k))
    ensures LeavesAt(s, j)
    decreases |s| - Position(s, k)
  {
    var i := Position(s, k);
    EndedIff(s, i);
    if Turn(s, i).0 <= |s| {
      j := Leaves(s, k + 1);
    } else {
      assert Position(s, k + 1) == Turn(s, i).0;
      j := k;
    }
  }

  /** The loop stays in the text and comes to its terminator exactly if nothing is left open in it; otherwise
      some turn takes the pointer past the terminator. */
  lemma ClosedIff(s: string)
    requires Terminated(s)
    ensures Closed(s, 0) <==> forall k: nat :: Position(s, k) <= |s|
    ensures Closed(s, 0) <==> !exists k: nat :: LeavesAt(s, k)
  {
    if Closed(s, 0) {
      forall k: nat
        ensures Position(s, k) <= |s|
      {
        PositionsInside(s, k);
      }
    } else {
      assert Position(s, 0) == 0;
      var j := Leaves(s, 0);
      assert Position(s, j + 1) > |s|;
    }
  }

  /** After the text of a single quote the pointer stands behind the terminator. */
  lemma LoneQuote()
    ensures Position("\"", 1) == 2 > |"\""|
  {
    assert QuoteEnd("\"", 1) == 1;
    assert Position("\"", 0) == 0;
  }

  /** The minifier has the same effect on the text w at i as writing v there. */
  ghost predicate Becomes(s: string, i: nat, w: string, v: string) {
    && Minified(s, i) == v + Minified(s, i + |w|)
    && (Closed(s, i + |w|) ==> Closed(s, i))
  }

  lemma BecomesConcat(s: string, i: nat, a: string, b: string, x: string, y: string)
    requires Becomes(s, i, a, x) && Becomes(s, i + |a|, b, y)
    ensures Becomes(s, i, a + b, x + y)
  {
    hide Minified, Closed;
    assert x + y + Minified(s, i + |a| + |b|) == x + (y + Minified(s, i + |a| + |b|));
  }

  predicate Verbatim(c: char) {
    !Dropped(c) && c != '/' && c != '\"' && c != NUL
  }

  lemma CharBecomes(s: string, i: nat)
    requires i < |s|
    ensures Verbatim(s[i]) ==> Becomes(s, i, [s[i]], [s[i]])
    ensures Dropped(s[i]) ==> Becomes(s, i, [s[i]], "")
  {
  }

  /** Punctuation, digits and keywords stay. */
  lemma {:induction false} Kept(s: string, i: nat, w: string)
    requires Here(s, i, w) && forall k :: 0 <= k < |w| ==> Verbatim(w[k])
    ensures Becomes(s, i, w, w)
    decreases |w|
  {
    if w == "" {
      assert Minified(s, i) == "" + Minified(s, i);
    } else {
      hide Becomes;
      assert s[i + 0] == w[0] && w == [w[0]] + w[1..];
      HereSplit(s, i, [w[0]], w[1..]);
      CharBecomes(s, i);
      Kept(s, i + 1, w[1..]);
      BecomesConcat(s, i, [w[0]], w[1..], [w[0]], w[1..]);
    }
  }

  /** White space vanishes. */
  lemma {:induction false} Gone(s: string, i: nat, w: string)
    requires Here(s, i, w) && forall k :: 0 <= k < |w| ==> Dropped(w[k])
    ensures Becomes(s, i, w, "")
    decreases |w|
  {
    if w == "" {
      assert Minified(s, i) == "" + Minified(s, i);
    } else {
      hide Becomes;
      assert s[i + 0] == w[0] && w == [w[0]] + w[1..];
      HereSplit(s, i, [w[0]], w[1..]);
      CharBecomes(s, i);
      Gone(s, i + 1, w[1..]);
      BecomesConcat(s, i, [w[0]], w[1..], "", "");
      assert "" + "" == "";
    }
  }

  lemma {:induction false} EscapedEnd(s: string, i: nat, t: string)
    requires Terminated(t) && Here(s, i, Escaped(t)) && At(s, i + |Escaped(t)|) == '\"'
    ensures QuoteEnd(s, i) == i + |Escaped(t)|
    decreases |t|
  {
    if t != "" {
      hide Escape, Here;
      var c := Escape(t[0]);
      HereSplit(s, i, c, Escaped(t[1..]));
      EscapedEnd(s, i + |c|, t[1..]);
      OneEscapeEnd(s, i, t[0]);
    }
  }

  lemma OneEscapeEnd(s: string, i: nat, c: char)
    requires c != NUL && Here(s, i, Escape(c))
    ensures QuoteEnd(s, i) == QuoteEnd(s, i + |Escape(c)|)
  {
    var w := Escape(c);
    assert s[i + 0] == w[0];
    if !Raw(c) {
      assert s[i + 1] == w[1];
      if w[1] == 'u' {
        assert s[i + 2] == w[2] && s[i + 3] == w[3] && s[i + 4] == w[4] && s[i + 5] == w[5];
        assert QuoteEnd(s, i + 2) == QuoteEnd(s, i + 3) == QuoteEnd(s, i + 4);
        assert QuoteEnd(s, i + 4) == QuoteEnd(s, i + 5) == QuoteEnd(s, i + 6);
      }
    }
  }

  lemma TurnBecomes(s: string, i: nat, w: string, v: string)
    requires i < |s| && Ended(s, i) && Turn(s, i) == (i + |w|, v)
    ensures Becomes(s, i, w, v)
  {
    hide Turn, Ended;
  }

  lemma StringBecomes(s: string, i: nat, t: string)
    requires Terminated(t) && Here(s, i, Quoted(t))
    ensures Becomes(s, i, Quoted(t), Quoted(t))
  {
    hide Escaped, QuoteEnd, Becomes;
    var w := Quoted(t);
    HereSplit(s, i, "\"", Escaped(t) + "\"");
    HereSplit(s, i + 1, Escaped(t), "\"");
    assert w == "\"" + (Escaped(t) + "\"");
    HereAt(s, i, "\"", 0);
    HereAt(s, i + 1 + |Escaped(t)|, "\"", 0);
    EscapedEnd(s, i + 1, t);
    assert s[i..i + |w|] == w;
    TurnBecomes(s, i, w, w);
  }

  // ----- printed values -----

  lemma {:induction false} ValueBecomes(s: string, i: nat, v: Value, depth: nat)
    requires Plain(v) && Here(s, i, Print(v, depth, true))
    ensures Becomes(s, i, Print(v, depth, true), Print(v, depth, false))
    decreases v, 1
  {
    match v
    case Number(m, _) => Kept(s, i, Decimal(m));
    case String(t) => StringBecomes(s, i, t);
    case Array(items) => ArrayBecomes(s, i, items, depth);
    case Object(members) => ObjectBecomes(s, i, members, depth);
    case Null => Kept(s, i, "null");
    case False => Kept(s, i, "false");
    case True => Kept(s, i, "true");
  }

  lemma {:induction false} ArrayBecomes(s: string, i: nat, items: Items, depth: nat)
    requires PlainItems(items) && Here(s, i, Print(Array(items), depth, true))
    ensures Becomes(s, i, Print(Array(items), depth, true), Print(Array(items), depth, false))
    decreases items, 1
  {
    hide Becomes, Here;
    if items.NoItem? {
      Kept(s, i, "[]");
    } else {
      var w, x := PrintItems(items, depth + 1, true), PrintItems(items, depth + 1, false);
      HereSplit(s, i, "[" + w, "]");
      HereSplit(s, i, "[", w);
      Kept(s, i, "[");
      ItemsBecome(s, i + 1, items, depth + 1);
      Kept(s, i + 1 + |w|, "]");
      BecomesConcat(s, i, "[", w, "[", x);
      BecomesConcat(s, i, "[" + w, "]", "[" + x, "]");
    }
  }

  lemma {:induction false} ItemsBecome(s: string, i: nat, items: Items, depth: nat)
    requires items.Item? && PlainItems(items) && Here(s, i, PrintItems(items, depth, true))
    ensures Becomes(s, i, PrintItems(items, depth, true), PrintItems(items, depth, false))
    decreases items, 0
  {
    hide Becomes, Here, Print;
    var w, x := Print(items.value, depth, true), Print(items.value, depth, false);
    if items.next.NoItem? {
      ValueBecomes(s, i, items.value, depth);
    } else {
      var rest := PrintItems(items.next, depth, true);
      HereSplit(s, i, w + ", ", rest);
      HereSplit(s, i, w, ", ");
      ValueBecomes(s, i, items.value, depth);
      CommaBecomes(s, i + |w|);
      BecomesConcat(s, i, w, ", ", x, ",");
      ItemsBecome(s, i + |w| + 2, items.next, depth);
      BecomesConcat(s, i, w + ", ", rest, x + ",", PrintItems(items.next, depth, false));
    }
  }

  lemma CommaBecomes(s: string, i: nat)
    requires Here(s, i, ", ")
    ensures Becomes(s, i, ", ", ",")
  {
    assert ", " == "," + " " && "," + "" == ",";
    HereSplit(s, i, ",", " ");
    Kept(s, i, ",");
    Gone(s, i + 1, " ");
    BecomesConcat(s, i, ",", " ", ",", "");
  }

  lemma LabelBecomes(s: string, i: nat, name: string, depth: nat)
    requires Terminated(name) && Here(s, i, Label(name, depth, true))
    ensures Becomes(s, i, Label(name, depth, true), Label(name, depth, false))
  {
    hide Becomes, Here, Quoted;
    var tabs, q := Tabs(depth), Quoted(name);
    HereSplit(s, i, tabs + q + ":", "\t");
    HereSplit(s, i, tabs + q, ":");
    HereSplit(s, i, tabs, q);
    Gone(s, i, tabs);
    StringBecomes(s, i + |tabs|, name);
    Kept(s, i + |tabs + q|, ":");
    Gone(s, i + |tabs + q + ":"|, "\t");
    BecomesConcat(s, i, tabs, q, "", q);
    BecomesConcat(s, i, tabs + q, ":", "" + q, ":");
    BecomesConcat(s, i, tabs + q + ":", "\t", "" + q + ":", "");
  }

  lemma AfterBecomes(s: string, i: nat, last: bool)
    requires Here(s, i, After(last, true))
    ensures Becomes(s, i, After(last, true), After(last, false))
  {
    hide Becomes, Here;
    var comma := if last then "" else ",";
    HereSplit(s, i, comma, "\n");
    Kept(s, i, comma);
    Gone(s, i + |comma|, "\n");
    BecomesConcat(s, i, comma, "\n", comma, "");
  }

  lemma {:induction false} MembersBecome(s: string, i: nat, members: Members, depth: nat)
    requires PlainMembers(members) && Here(s, i, PrintMembers(members, depth, true))
    ensures Becomes(s, i, PrintMembers(members, depth, true), PrintMembers(members, depth, false))
    decreases members, 0
  {
    hide Becomes, Here, Print, Label, After;
    if members.NoMember? {
      Kept(s, i, "");
    } else {
      var last := members.next.NoMember?;
      var front, front' := Label(members.name, depth, true), Label(members.name, depth, false);
      var w, x := Print(members.value, depth, true), Print(members.value, depth, false);
      var after, rest := After(last, true), PrintMembers(members.next, depth, true);
      HereSplit(s, i, front + w + after, rest);
      HereSplit(s, i, front + w, after);
      HereSplit(s, i, front, w);
      LabelBecomes(s, i, members.name, depth);
      ValueBecomes(s, i + |front|, members.value, depth);
      AfterBecomes(s, i + |front + w|, last);
      MembersBecome(s, i + |front + w + after|, members.next, depth);
      BecomesConcat(s, i, front, w, front', x);
      BecomesConcat(s, i, front + w, after, front' + x, After(last, false));
      BecomesConcat(s, i, front + w + after, rest,
        front' + x + After(last, false), PrintMembers(members.next, depth, false));
    }
  }

  lemma BracesBecome(s: string, i: nat, first: string, inner: string, inner': string, last: string)
    requires Here(s, i, "{" + first + inner + last + "}")
    requires (forall k :: 0 <= k < |first| ==> Dropped(first[k])) && forall k :: 0 <= k < |last| ==> Dropped(last[k])
    requires Becomes(s, i + 1 + |first|, inner, inner')
    ensures Becomes(s, i, "{" + first + inner + last + "}", "{" + inner' + "}")
  {
    hide Becomes, Here;
    HereSplit(s, i, "{" + first + inner + last, "}");
    HereSplit(s, i, "{" + first + inner, last);
    HereSplit(s, i, "{" + first, inner);
    HereSplit(s, i, "{", first);
    Kept(s, i, "{");
    Gone(s, i + 1, first);
    Gone(s, i + |"{" + first + inner|, last);
    Kept(s, i + |"{" + first + inner + last|, "}");
    BecomesConcat(s, i, "{", first, "{", "");
    BecomesConcat(s, i, "{" + first, inner, "{" + "", inner');
    BecomesConcat(s, i, "{" + first + inner, last, "{" + "" + inner', "");
    BecomesConcat(s, i, "{" + first + inner + last, "}", "{" + "" + inner' + "", "}");
    assert "{" + "" + inner' + "" + "}" == "{" + inner' + "}";
  }

  lemma {:induction false} ObjectBecomes(s: string, i: nat, members: Members, depth: nat)
    requires PlainMembers(members) && Here(s, i, Print(Object(members), depth, true))
    ensures Becomes(s, i, Print(Object(members), depth, true), Print(Object(members), depth, false))
    decreases members, 1
  {
    hide Becomes, Here, PrintMembers;
    if members.NoMember? {
      var pad := "\n" + Tabs(depth - 1);
      assert Print(Object(members), depth, true) == "{" + pad + "" + "" + "}";
      HereSplit(s, i, "{" + pad, "}");
      HereSplit(s, i + 1 + |pad|, "", "}");
      assert "" + "}" == "}";
      Kept(s, i + 1 + |pad|, "");
      BracesBecome(s, i, pad, "", "", "");
      assert "{" + "" + "}" == Print(Object(members), depth, false);
    } else {
      var w, x := PrintMembers(members, depth + 1, true), PrintMembers(members, depth + 1, false);
      HereSplit(s, i, "{" + "\n" + w, Tabs(depth) + "}");
      assert "{" + "\n" + w + Tabs(depth) + "}" == "{" + "\n" + w + (Tabs(depth) + "}");
      HereSplit(s, i, "{" + "\n", w);
      MembersBecome(s, i + 2, members, depth + 1);
      BracesBecome(s, i, "\n", w, x, Tabs(depth));
      assert "{" + x + "}" == Print(Object(members), depth, false);
    }
  }

  /** Minifying the formatted print of a value gives its unformatted print. */
  lemma MinifyPrint(v: Value)
    requires Plain(v)
    ensures Minified(Print(v, 0, true), 0) == Print(v, 0, false) && Closed(Print(v, 0, true), 0)
  {
    var w := Print(v, 0, true);
    ValueBecomes(w, 0, v, 0);
  }

  // ----- in place -----

  /** The text s from j on is still in the buffer, with its terminator, and out has been written. */
  ghost predicate Holds(json: array<char>, s: string, j: nat, out: string)
    reads json
  {
    && |out| <= j <= |s| < json.Length && json[|s|] == NUL
    && (forall k :: j <= k < |s| ==> json[k] == s[k])
    && json[..|out|] == out
  }

  method CopyChar(json: array<char>, j: nat, into: nat, ghost s: string, ghost out: string)
    requires Holds(json, s, j, out) && into == |out| && j < |s|
    modifies json
    ensures Holds(json, s, j + 1, out + [s[j]])
    ensures forall k :: |s| <= k < json.Length ==> json[k] == old(json[k])
  {
    json[into] := json[j];
    assert json[..into + 1] == json[..into] + [json[into]];
  }

  /** The character at j of a literal that starts at start. */
  method CopyNext(json: array<char>, start: nat, j: nat, into: nat, ghost s: string, ghost out: string)
    requires start <= j < |s| && Holds(json, s, j, out + s[start..j]) && into == |out| + j - start
    modifies json
    ensures Holds(json, s, j + 1, out + s[start..j + 1])
    ensures forall k :: |s| <= k < json.Length ==> json[k] == old(json[k])
  {
    CopyChar(json, j, into, s, out + s[start..j]);
    assert out + s[start..j] + [s[j]] == out + s[start..j + 1];
  }

  /** One turn inside a literal: a character, or a backslash with the character it takes along. The pointer is
      about to leave the text if the backslash is its last character. */
  method CopyUnit(json: array<char>, start: nat, at: nat, to: nat, ghost s: string, ghost out: string)
    returns (past: bool, j: nat, into: nat)
    requires start <= at < |s| && At(s, at) != NUL && At(s, at) != '\"'
    requires Holds(json, s, at, out + s[start..at]) && to == |out| + at - start && Terminated(s)
    modifies json
    ensures past ==> QuoteEnd(s, at) >= |s|
    ensures !past ==> at < j <= |s| && QuoteEnd(s, j) == QuoteEnd(s, at) && into == |out| + j - start
    ensures !past ==> Holds(json, s, j, out + s[start..j])
    ensures forall k :: |s| <= k < json.Length ==> json[k] == old(json[k])
  {
    past, j, into := false, at, to;
    if json[j] == '\\' {
      CopyNext(json, start, j, into, s, out);
      j, into := j + 1, into + 1;
      if json[j] == NUL {
        past := true;
        return;
      }
    }
    CopyNext(json, start, j, into, s, out);
    j, into := j + 1, into + 1;
  }

  /** A string literal is copied up to and including its closing quote, if it has one. */
  method CopyString(json: array<char>, start: nat, begin: nat, ghost s: string, ghost out: string)
    returns (past: bool, j: nat, into: nat)
    requires Holds(json, s, start, out) && begin == |out| && Terminated(s)
    requires start < |s| && s[start] == '\"'
    modifies json
    ensures past <==> QuoteEnd(s, start + 1) >= |s|
    ensures !past ==> j == QuoteEnd(s, start + 1) + 1 && into == |out| + j - start
    ensures !past ==> Holds(json, s, j, out + s[start..j])
    ensures forall k :: |s| <= k < json.Length ==> json[k] == old(json[k])
  {
    assert out + s[start..start] == out;
    CopyNext(json, start, start, begin, s, out);
    past, j, into := false, start + 1, begin + 1;
    while json[j] != NUL && json[j] != '\"'
      invariant start < j <= |s| && QuoteEnd(s, start + 1) == QuoteEnd(s, j) && into == |out| + j - start
      invariant Holds(json, s, j, out + s[start..j])
      invariant forall k :: |s| <= k < json.Length ==> json[k] == old(json[k])
      decreases |s| - j
    {
      past, j, into := CopyUnit(json, start, j, into, s, out);
      if past {
        return;
      }
    }
    if json[j] == NUL {
      past := true;
      return;
    }
    CopyNext(json, start, j, into, s, out);
    j, into := j + 1, into + 1;
  }

  /** The loop of the minifier is at i and has written out. */
  ghost predicate Progress(s: string, i: nat, out: string) {
    i <= |s| && (Closed(s, i) <==> Closed(s, 0)) && out + Minified(s, i) == Minified(s, 0)
  }

  lemma TurnProgress(s: string, i: nat, out: string)
    requires i < |s| && Terminated(s) && Progress(s, i, out)
    ensures Ended(s, i) ==> Progress(s, Turn(s, i).0, out + Turn(s, i).1)
    ensures !Ended(s, i) ==> !Closed(s, 0)
  {
    hide Turn, Ended, Terminated;
    EndedIff(s, i);
    MinifiedTurn(s, i, out);
  }

  lemma MinifiedTurn(s: string, i: nat, out: string)
    requires i < |s|
    ensures out + Turn(s, i).1 + Minified(s, Turn(s, i).0) == out + Minified(s, i)
  {
    hide Turn;
    var t := Turn(s, i);
    assert out + t.1 + Minified(s, t.0) == out + (t.1 + Minified(s, t.0));
  }

  /** One turn of the loop; past tells that the pointer is about to leave the text. */
  method TakeTurn(json: array<char>, at: nat, to: nat, ghost s: string, ghost out: string)
    returns (past: bool, j: nat, into: nat)
    requires Holds(json, s, at, out) && to == |out| && at < |s| && Terminated(s)
    modifies json
    ensures past <==> !Ended(s, at)
    ensures !past ==> j == Turn(s, at).0 <= |s| && into == |out + Turn(s, at).1|
    ensures !past ==> Holds(json, s, j, out + Turn(s, at).1)
    ensures forall k :: |s| <= k < json.Length ==> json[k] == old(json[k])
  {
    past, j, into := false, at, to;
    assert out + "" == out;
    if json[j] == ' ' || json[j] == '\t' || json[j] == '\r' || json[j] == '\n' {
      j := j + 1;
    } else if json[j] == '/' && json[j + 1] == '/' {
      j := PassLine(json, j, s, out);
    } else if json[j] == '/' && json[j + 1] == '*' {
      j := PassStar(json, j, s, out);
      past := json[j] == NUL;
      j := j + 2;
    } else if json[j] == '\"' {
      past, j, into := CopyString(json, j, into, s, out);
    } else {
      CopyChar(json, j, into, s, out);
      j, into := j + 1, into + 1;
    }
  }

  /** The text of n characters in the buffer is replaced by its minified form, or the pointer would leave the
      text, which it does exactly if a comment or string is left open; the model stops there. */
  method Minify(json: array<char>, n: nat) returns (past: bool)
    requires n < json.Length && json[n] == NUL && Terminated(json[..n])
    modifies json
    ensures past <==> !Closed(old(json[..n]), 0)
    ensures !past ==>
      var m := Minified(old(json[..n]), 0);
      |m| <= n && json[..|m|] == m && json[|m|] == NUL
    ensures forall k :: n < k < json.Length ==> json[k] == old(json[k])
  {
    hide Turn, Ended, Terminated;
    ghost var s, out := json[..n], "";
    past := false;
    var j, into := 0, 0;
    assert out + Minified(s, 0) == Minified(s, 0);
    while json[j] != NUL
      invariant Holds(json, s, j, out) && into == |out| && Progress(s, j, out)
      invariant forall k :: n < k < json.Length ==> json[k] == old(json[k])
      decreases n - j
    {
      TurnProgress(s, j, out);
      ghost var turn := Turn(s, j);
      past, j, into := TakeTurn(json, j, into, s, out);
      if past {
        return;
      }
      out := out + turn.1;
    }
    assert j == |s| by {
      EndsAtTerminator(json, s, j, out);
    }
    json[into] := NUL;
    assert out + "" == out;
  }

  lemma EndsAtTerminator(json: array<char>, s: string, j: nat, out: string)
    requires Terminated(s) && Holds(json, s, j, out) && json[j] == NUL
    ensures j == |s|
  {
  }

  method PassLine(json: array<char>, start: nat, ghost s: string, ghost out: string) returns (j: nat)
    requires Holds(json, s, start, out) && Terminated(s) && start < |s| && s[start] == '/'
    ensures start < j <= |s| && j == LineEnd(s, start + 1)
  {
    j := start;
    while json[j] != NUL && json[j] != '\n'
      invariant start <= j <= |s| && LineEnd(s, j) == LineEnd(s, start)
      decreases |s| - j
    {
      j := j + 1;
    }
  }

  method PassStar(json: array<char>, start: nat, ghost s: string, ghost out: string) returns (j: nat)
    requires Holds(json, s, start, out) && Terminated(s) && start < |s|
    ensures start <= j <= |s| && j == StarEnd(s, start) && (j < |s| ==> j + 2 <= |s|)
  {
    j := start;
    while json[j] != NUL && !(json[j] == '*' && json[j + 1] == '/')
      invariant start <= j <= |s| && StarEnd(s, j) == StarEnd(s, start)
      decreases |s| - j
    {
      j := j + 1;
    }
  }
}
