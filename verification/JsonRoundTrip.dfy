/** Parsing what was printed gives the value back, since a print is one way to write it by the grammar. */
module JsonRoundTrip {
  import opened Optional
  import opened JsonText
  import opened JsonValue
  import opened JsonPrint
  import opened JsonParse
  import opened JsonGrammar

  // ----- numbers -----

  function DigitsOf(n: nat): (ds: seq<nat>)
    ensures ds != [] && DigitsOk(ds) && (n > 0 ==> ds[0] != 0) && (n == 0 ==> ds == [0])
  {
    if n < 10 then [n] else DigitsOf(n / 10) + [n % 10]
  }

  lemma {:induction false} DigitsAre(n: nat)
    ensures Amount(DigitsOf(n)) == n && DigitText(DigitsOf(n)) == Digits(n)
    decreases n
  {
    if n < 10 {
      OneDigit(n);
    } else {
      DigitsAre(n / 10);
      hide DigitText;
      MoreDigits(DigitsOf(n / 10), n % 10);
    }
  }

  lemma OneDigit(d: nat)
    requires d < 10
    ensures Amount([d]) == d && DigitText([d]) == [DigitOf(d)]
  {
    assert Amount([d][..0]) == 0;
  }

  lemma MoreDigits(ds: seq<nat>, d: nat)
    requires DigitsOk(ds) && d < 10
    ensures Amount(ds + [d]) == 10 * Amount(ds) + d && DigitText(ds + [d]) == DigitText(ds) + [DigitOf(d)]
  {
    assert (ds + [d])[..|ds|] == ds;
  }

  function NumeralOf(n: int): (x: Numeral)
    ensures NumeralOk(x)
  {
    Numeral(n < 0, DigitsOf(if n < 0 then -n else n), [], None)
  }

  lemma NumeralIs(n: int)
    ensures NumeralText(NumeralOf(n)) == Decimal(n) && NumeralMeans(NumeralOf(n)) == Number(n, 0)
  {
    hide DigitsOf, Digits, Amount, DigitText, DigitsOk;
    var m := if n < 0 then -n else n;
    DigitsAre(m);
    assert DigitsOf(m) + [] == DigitsOf(m);
    assert Digits(m) + ("" + "") == Digits(m) && "" + Digits(m) == Digits(m);
  }

  lemma NumberRoundTrip(s: string, i: nat, n: int)
    requires Here(s, i, Decimal(n)) && Ends(At(s, i + |Decimal(n)|))
    ensures ParseNumber(s, i) == Ok(Number(n, 0), i + |Decimal(n)|)
    ensures At(s, i) == '-' || JsonText.Digit(At(s, i))
  {
    NumeralIs(n);
    NumeralReads(s, i, NumeralOf(n));
  }

  // ----- strings -----

  /** How the printer writes a character. */
  function LetterOf(c: char): (l: Letter)
    requires c != NUL
    ensures LetterOk(l)
  {
    if Raw(c) then Itself(c)
    else if c == '\\' || c == '\"' then Short(c)
    else if c == 8 as char then Short('b')
    else if c == 12 as char then Short('f')
    else if c == '\n' then Short('n')
    else if c == '\r' then Short('r')
    else if c == '\t' then Short('t')
    else Code([Hex(0, false), Hex(0, false), Hex(c as int / 16, false), Hex(c as int % 16, false)])
  }

  lemma LetterIs(c: char)
    requires c != NUL
    ensures LetterText(LetterOf(c)) == Escape(c) && LetterMeans(LetterOf(c)) == [c]
  {
  }

  lemma EscapeRoundTrip(s: string, i: nat, c: char)
    requires c != NUL && Here(s, i, Escape(c))
    ensures InString(s, i) && Unescape(s, i) == ([c], i + |Escape(c)|)
  {
    LetterIs(c);
    LetterReads(s, i, LetterOf(c));
  }

  function LettersOf(t: string): (ls: seq<Letter>)
    requires Terminated(t)
    ensures LettersOk(ls)
  {
    if t == "" then [] else [LetterOf(t[0])] + LettersOf(t[1..])
  }

  lemma {:induction false} LettersAre(t: string)
    requires Terminated(t)
    ensures LettersText(LettersOf(t)) == Escaped(t) && LettersMean(LettersOf(t)) == t
    decreases |t|
  {
    hide LetterOf, Escape, LetterText, LetterMeans;
    if t != "" {
      LettersAre(t[1..]);
      LetterIs(t[0]);
      LettersStep(LettersOf(t));
      assert LettersOf(t)[1..] == LettersOf(t[1..]);
    }
  }

  lemma StringIs(t: string)
    requires Terminated(t)
    ensures StringText(LettersOf(t)) == Quoted(t) && LettersMean(LettersOf(t)) == t
  {
    LettersAre(t);
    hide LettersOf, LettersText, Escaped;
    assert "\"" + Escaped(t) + "\"" == "\"" + (Escaped(t) + "\"");
  }

  lemma StringRoundTrip(s: string, i: nat, t: string)
    requires Terminated(t) && Here(s, i, Quoted(t))
    ensures At(s, i) == '\"' && ParseString(s, i) == Ok(t, i + |Quoted(t)|)
  {
    StringIs(t);
    StringReads(s, i, LettersOf(t));
  }

  // ----- values -----

  function Line(fmt: bool): string {
    if fmt then "\n" else ""
  }

  function Tab(fmt: bool): string {
    if fmt then "\t" else ""
  }

  function Indent(depth: nat, fmt: bool): string {
    if fmt then Tabs(depth) else ""
  }

  /** How the printer writes a value. */
  function DocOf(v: Value, depth: nat, fmt: bool): (d: Doc)
    requires Plain(v)
    ensures DocOk(d) && (d.Numeric? <==> v.Number?)
    decreases v
  {
    match v
    case Null => Word(v)
    case False => Word(v)
    case True => Word(v)
    case Number(m, _) => Numeric(NumeralOf(m))
    case String(t) => Text(LettersOf(t))
    case Array(items) => if items.NoItem? then EmptyList("") else List("", EntriesOf(items, depth + 1, fmt))
    case Object(members) =>
      if members.NoMember? then EmptyRecord(if fmt then "\n" + Tabs(depth - 1) else "")
      else Record(Line(fmt) + Indent(depth + 1, fmt), FieldsOf(members, depth + 1, fmt, Indent(depth, fmt)))
  }

  function EntriesOf(items: Items, depth: nat, fmt: bool): (es: Entries)
    requires items.Item? && PlainItems(items)
    ensures EntriesOk(es)
    decreases items
  {
    var d := DocOf(items.value, depth, fmt);
    if items.next.NoItem? then LastEntry(d, "")
    else Entry(d, "", if fmt then " " else "", EntriesOf(items.next, depth, fmt))
  }

  function FieldsOf(members: Members, depth: nat, fmt: bool, last: string): (fs: Fields)
    requires members.Member? && PlainMembers(members) && Blank(last)
    ensures FieldsOk(fs)
    decreases members
  {
    var name, d := LettersOf(members.name), DocOf(members.value, depth, fmt);
    if members.next.NoMember? then LastField(name, "", Tab(fmt), d, Line(fmt) + last)
    else Field(name, "", Tab(fmt), d, "", Line(fmt) + Indent(depth, fmt), FieldsOf(members.next, depth, fmt, last))
  }

  lemma {:induction false} DocIs(v: Value, depth: nat, fmt: bool)
    requires Plain(v)
    ensures DocText(DocOf(v, depth, fmt)) == Print(v, depth, fmt) && DocMeans(DocOf(v, depth, fmt)) == v
    decreases v, 1
  {
    match v
    case Number(m, _) => NumeralIs(m);
    case String(t) => StringIs(t);
    case Array(items) => ListIs(items, depth, fmt);
    case Object(members) => RecordIs(members, depth, fmt);
    case _ =>
  }

  lemma {:induction false} ListIs(items: Items, depth: nat, fmt: bool)
    requires PlainItems(items)
    ensures DocText(DocOf(Array(items), depth, fmt)) == Print(Array(items), depth, fmt)
    ensures DocMeans(DocOf(Array(items), depth, fmt)) == Array(items)
    decreases items, 1
  {
    hide EntriesOf, EntriesText, EntriesMean, PrintItems;
    if items.Item? {
      EntriesAre(items, depth + 1, fmt);
      Bracketed(PrintItems(items, depth + 1, fmt));
    }
  }

  lemma Bracketed(w: string)
    ensures "[" + w + "]" == "[" + ("" + (w + "]"))
  {
  }

  lemma {:induction false} EntriesAre(items: Items, depth: nat, fmt: bool)
    requires items.Item? && PlainItems(items)
    ensures EntriesText(EntriesOf(items, depth, fmt)) == PrintItems(items, depth, fmt) + "]"
    ensures EntriesMean(EntriesOf(items, depth, fmt)) == items
    decreases items, 0
  {
    hide DocOf, DocText, DocMeans, Print;
    DocIs(items.value, depth, fmt);
    var w := Print(items.value, depth, fmt);
    if items.next.NoItem? {
      assert w + ("" + "]") == w + "]";
    } else {
      EntriesAre(items.next, depth, fmt);
      ItemsJoin(w, if fmt then " " else "", PrintItems(items.next, depth, fmt));
    }
  }

  lemma ItemsJoin(w: string, pad: string, more: string)
    ensures pad == "" ==> w + "," + more + "]" == w + ("" + ("," + (pad + (more + "]"))))
    ensures pad == " " ==> w + ", " + more + "]" == w + ("" + ("," + (pad + (more + "]"))))
  {
    assert ", " == "," + " ";
  }

  lemma RegroupObject(line: string, members: string, last: string, indent: string, tail: string)
    requires members + (last + "}") == indent + tail
    ensures "{" + line + members + last + "}" == "{" + ((line + indent) + tail)
  {
    assert line + members + last + "}" == line + (members + (last + "}"));
    assert line + indent + tail == line + (indent + tail);
  }

  lemma {:induction false} RecordIs(members: Members, depth: nat, fmt: bool)
    requires PlainMembers(members)
    ensures DocText(DocOf(Object(members), depth, fmt)) == Print(Object(members), depth, fmt)
    ensures DocMeans(DocOf(Object(members), depth, fmt)) == Object(members)
    decreases members, 1
  {
    hide FieldsOf, FieldsText, FieldsMean, PrintMembers, Line, Tabs;
    if members.NoMember? {
      var pad := if fmt then "\n" + Tabs(depth - 1) else "";
      assert "{" + pad + "}" == "{" + (pad + "}");
    } else {
      var last := Indent(depth, fmt);
      FieldsAre(members, depth + 1, fmt, last);
      RegroupObject(Line(fmt), PrintMembers(members, depth + 1, fmt), last, Indent(depth + 1, fmt),
                    FieldsText(FieldsOf(members, depth + 1, fmt, last)));
      RecordPrint(members, depth, fmt);
    }
  }

  lemma RecordPrint(members: Members, depth: nat, fmt: bool)
    requires members.Member? && PlainMembers(members)
    ensures Print(Object(members), depth, fmt) ==
      "{" + Line(fmt) + PrintMembers(members, depth + 1, fmt) + Indent(depth, fmt) + "}"
  {
    hide PrintMembers;
  }

  lemma {:induction false} FieldsAre(members: Members, depth: nat, fmt: bool, last: string)
    requires members.Member? && PlainMembers(members) && Blank(last)
    ensures PrintMembers(members, depth, fmt) + (last + "}") ==
      Indent(depth, fmt) + FieldsText(FieldsOf(members, depth, fmt, last))
    ensures FieldsMean(FieldsOf(members, depth, fmt, last)) == members
    decreases members, 0
  {
    hide DocOf, DocText, DocMeans, Print, LettersOf, LettersMean, StringText, Quoted;
    DocIs(members.value, depth, fmt);
    StringIs(members.name);
    var q, w := Quoted(members.name), Print(members.value, depth, fmt);
    if members.next.NoMember? {
      LastJoin(Indent(depth, fmt), q, Tab(fmt), w, Line(fmt), last);
    } else {
      FieldsAre(members.next, depth, fmt, last);
      MoreJoin(Indent(depth, fmt), q, Tab(fmt), w, Line(fmt), PrintMembers(members.next, depth, fmt), last + "}",
               FieldsText(FieldsOf(members.next, depth, fmt, last)));
    }
  }

  lemma LastJoin(t: string, q: string, tab: string, w: string, line: string, last: string)
    ensures (t + q + ":" + tab) + w + ("" + line) + "" + (last + "}") ==
      t + (q + ("" + (":" + (tab + (w + ((line + last) + "}"))))))
  {
  }

  lemma MoreJoin(t: string, q: string, tab: string, w: string, line: string, more: string, close: string, tail: string)
    requires more + close == t + tail
    ensures (t + q + ":" + tab) + w + ("," + line) + more + close ==
      t + (q + ("" + (":" + (tab + (w + ("" + ("," + ((line + t) + tail))))))))
  {
    var head := (t + q + ":" + tab) + w + ("," + line);
    assert head + more + close == head + (more + close);
    assert head + (t + tail) == t + (q + ("" + (":" + (tab + (w + ("" + ("," + ((line + t) + tail))))))));
  }

  /** A print is one way to write its value. */
  lemma PrintRenders(v: Value, depth: nat, fmt: bool)
    requires Plain(v)
    ensures Renders(v, Print(v, depth, fmt))
  {
    hide DocOf, DocText, DocMeans, Print;
    DocIs(v, depth, fmt);
  }

  lemma ValueRoundTrip(s: string, i: nat, v: Value, depth: nat, fmt: bool)
    requires Plain(v) && Here(s, i, Print(v, depth, fmt))
    requires v.Number? ==> Ends(At(s, i + |Print(v, depth, fmt)|))
    ensures ParseValue(s, i) == Ok(v, i + |Print(v, depth, fmt)|)
  {
    hide Print, ParseValue, Here;
    PrintRenders(v, depth, fmt);
    RenderedReads(s, i, v, Print(v, depth, fmt));
  }

  lemma ArrayRoundTrip(s: string, i: nat, items: Items, depth: nat, fmt: bool)
    requires PlainItems(items) && Here(s, i, Print(Array(items), depth, fmt))
    ensures At(s, i) == '[' && ParseArray(s, i) == Ok(Array(items), i + |Print(Array(items), depth, fmt)|)
  {
    hide PrintItems, EntriesOf, EntriesText, EntriesMean, ParseArray, Here;
    HereAt(s, i, Print(Array(items), depth, fmt), 0);
    ListIs(items, depth, fmt);
    ListReads(s, i, DocOf(Array(items), depth, fmt));
  }

  lemma ObjectRoundTrip(s: string, i: nat, members: Members, depth: nat, fmt: bool)
    requires PlainMembers(members) && Here(s, i, Print(Object(members), depth, fmt))
    ensures At(s, i) == '{' && ParseObject(s, i) == Ok(Object(members), i + |Print(Object(members), depth, fmt)|)
  {
    hide PrintMembers, FieldsOf, FieldsText, FieldsMean, ParseObject, Here, Tabs;
    HereAt(s, i, Print(Object(members), depth, fmt), 0);
    RecordIs(members, depth, fmt);
    RecordReads(s, i, DocOf(Object(members), depth, fmt));
  }

  // ----- whole texts -----

  /** cJSON_ParseWithOpts: leading white space is skipped, and on request nothing but white space may follow. */
  function ParseText(s: string, strict: bool): Parsed<Value> {
    var r := ParseValue(s, Skip(s, 0));
    if r.Err? || !strict || At(s, Skip(s, r.next)) == NUL then r else Err(Skip(s, r.next))
  }

  lemma {:induction false} SkipShift(w: string, rest: string, i: nat)
    ensures Skip(w + rest, |w| + i) == |w| + Skip(rest, i)
    decreases |rest| - i
  {
    assert At(w + rest, |w| + i) == At(rest, i);
    if i < |rest| {
      SkipShift(w, rest, i + 1);
    }
  }

  /** The parser gives a printed value back, formatted or not, and leaves the text behind it unread; on request
      it fails at the first character of it that is not white space. */
  lemma PrintThenParse(v: Value, fmt: bool, rest: string)
    requires Plain(v) && (v.Number? ==> Ends(At(rest, 0)))
    ensures ParseText(Print(v, 0, fmt) + rest, false) == Ok(v, |Print(v, 0, fmt)|)
    ensures ParseText(Print(v, 0, fmt) + rest, true) ==
      if At(rest, Skip(rest, 0)) == NUL then Ok(v, |Print(v, 0, fmt)|) else Err(|Print(v, 0, fmt)| + Skip(rest, 0))
  {
    hide ParseValue, Print, Ends, Here, Skip;
    var w := Print(v, 0, fmt);
    StartsText(w, rest);
    ValueRoundTrip(w + rest, 0, v, 0, fmt);
    SkipShift(w, rest, 0);
  }

  lemma StartsText(w: string, rest: string)
    requires w != "" && !Space(w[0])
    ensures Here(w + rest, 0, w) && Skip(w + rest, 0) == 0
    ensures forall k: nat :: At(w + rest, |w| + k) == At(rest, k)
  {
    SkipTo(w + rest, 0, 0);
  }

  /** So no two values print alike, whatever the formats. */
  lemma PrintInjective(v: Value, u: Value, f: bool, g: bool)
    requires Plain(v) && Plain(u) && Print(v, 0, f) == Print(u, 0, g)
    ensures v == u
  {
    hide Print, ParseText;
    PrintThenParse(v, f, "");
    PrintThenParse(u, g, "");
    assert Print(v, 0, f) + "" == Print(u, 0, g) + "";
  }

  // ----- Unicode escapes -----

  function Hex4Text(h: nat): (w: string)
    requires h < 0x10000
    ensures |w| == 4
  {
    [HexOf(h / 4096), HexOf(h / 256 % 16), HexOf(h / 16 % 16), HexOf(h % 16)]
  }

  predicate Scalar(cp: nat) {
    0 < cp < 0x110000 && !(0xD800 <= cp <= 0xDFFF)
  }

  /** Section 7 of RFC 8259: one escape, or two for a code point beyond the basic plane. */
  function UnicodeEscape(cp: nat): string
    requires Scalar(cp)
  {
    if cp < 0x10000 then "\\u" + Hex4Text(cp)
    else
      var c := cp - 0x10000;
      "\\u" + Hex4Text(0xD800 + c / 1024) + "\\u" + Hex4Text(0xDC00 + c % 1024)
  }

  /** Section 3 of RFC 3629, read from bytes to code point. */
  function CodePoint(w: string): int {
    if |w| == 1 then w[0] as int
    else if |w| == 2 then w[0] as int % 32 * 64 + w[1] as int % 64
    else if |w| == 3 then (w[0] as int % 16 * 64 + w[1] as int % 64) * 64 + w[2] as int % 64
    else if |w| == 4 then ((w[0] as int % 8 * 64 + w[1] as int % 64) * 64 + w[2] as int % 64) * 64 + w[3] as int % 64
    else 0
  }

  predicate In(c: char, lo: nat, hi: nat) {
    lo <= c as int <= hi
  }

  /** Section 4 of RFC 3629: the bytes that encode one code point, in the shortest way and without surrogates. */
  predicate WellFormed(w: string) {
    || (|w| == 1 && In(w[0], 0, 0x7F))
    || (|w| == 2 && In(w[0], 0xC2, 0xDF) && In(w[1], 0x80, 0xBF))
    || (|w| == 3 && In(w[0], 0xE0, 0xEF) && In(w[1], 0x80, 0xBF) && In(w[2], 0x80, 0xBF)
        && (w[0] as int == 0xE0 ==> w[1] as int >= 0xA0) && (w[0] as int == 0xED ==> w[1] as int <= 0x9F))
    || (|w| == 4 && In(w[0], 0xF0, 0xF4) && In(w[1], 0x80, 0xBF) && In(w[2], 0x80, 0xBF) && In(w[3], 0x80, 0xBF)
        && (w[0] as int == 0xF0 ==> w[1] as int >= 0x90) && (w[0] as int == 0xF4 ==> w[1] as int <= 0x8F))
  }

  /** The bytes written for a code point are its encoding. */
  lemma Utf8RoundTrip(cp: nat)
    requires Scalar(cp)
    ensures CodePoint(Utf8(cp)) == cp && WellFormed(Utf8(cp))
  {
    if cp >= 0x10000 {
      FourBytes(cp);
    } else if cp >= 0x800 {
      ThreeBytes(cp);
    }
  }

  lemma ThreeBytes(cp: nat)
    requires 0x800 <= cp < 0x10000 && Scalar(cp)
    ensures CodePoint(Utf8(cp)) == cp && WellFormed(Utf8(cp))
  {
    var a := cp / 64;
    assert cp / 4096 == a / 64;
    assert Utf8(cp)[0] as int % 16 == a / 64;
  }

  lemma FourBytes(cp: nat)
    requires 0x10000 <= cp < 0x110000
    ensures CodePoint(Utf8(cp)) == cp && WellFormed(Utf8(cp))
  {
    var a := cp / 64;
    var b := a / 64;
    assert cp / 4096 == b && cp / 262144 == b / 64;
    assert Utf8(cp)[0] as int % 8 == b / 64;
  }

  /** The hexadecimal digits of a number below 65536. */
  function HexesOf(h: nat): (hs: seq<Hex>)
    requires h < 0x10000
    ensures HexOk(hs)
  {
    [Hex(h / 4096, false), Hex(h / 256 % 16, false), Hex(h / 16 % 16, false), Hex(h % 16, false)]
  }

  lemma HexesAre(h: nat)
    requires h < 0x10000
    ensures Unit(HexesOf(h)) == h && HexText(HexesOf(h)) == Hex4Text(h)
  {
    hide HexChar, HexOf;
    HexCharIs(h / 4096);
    HexCharIs(h / 256 % 16);
    HexCharIs(h / 16 % 16);
    HexCharIs(h % 16);
    UnitMath(h);
  }

  lemma HexCharIs(d: nat)
    requires d < 16
    ensures HexChar(Hex(d, false)) == HexOf(d)
  {
  }

  lemma UnitMath(h: nat)
    ensures h / 4096 * 4096 + h / 256 % 16 * 256 + h / 16 % 16 * 16 + h % 16 == h
  {
    assert h / 256 == h / 16 / 16 && h / 4096 == h / 256 / 16;
  }

  /** An escaped code point becomes its UTF-8 encoding. */
  lemma UnicodeRoundTrip(s: string, i: nat, cp: nat)
    requires Scalar(cp) && Here(s, i, UnicodeEscape(cp))
    ensures Unescape(s, i) == (Utf8(cp), i + |UnicodeEscape(cp)|)
  {
    hide HexesOf, HexText, Hex4Text, Unit, Unescape, Utf8;
    if cp < 0x10000 {
      HexesAre(cp);
      LetterReads(s, i, Code(HexesOf(cp)));
    } else {
      var c := cp - 0x10000;
      HexesAre(0xD800 + c / 1024);
      HexesAre(0xDC00 + c % 1024);
      var l := Pair(HexesOf(0xD800 + c / 1024), HexesOf(0xDC00 + c % 1024));
      var a, b := Hex4Text(0xD800 + c / 1024), Hex4Text(0xDC00 + c % 1024);
      assert "\\u" + a + "\\u" + b == "\\u" + a + ("\\u" + b);
      LetterReads(s, i, l);
    }
  }
}
