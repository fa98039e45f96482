/** JSON texts by the grammar of RFC 8259: how a value may be written, and that the parser reads every way of it. */
module JsonGrammar {
  import opened Optional
  import opened JsonText
  import opened JsonValue
  import opened JsonParse

  // ----- numbers (section 6) -----

  datatype Exp = Exp(letter: char, sign: string, digits: seq<nat>)

  /** The parts of a number; no fraction is an empty one. */
  datatype Numeral = Numeral(negative: bool, whole: seq<nat>, frac: seq<nat>, exp: Option<Exp>)

  predicate DigitsOk(ds: seq<nat>) {
    forall k :: 0 <= k < |ds| ==> ds[k] < 10
  }

  predicate NumeralOk(x: Numeral) {
    && x.whole != [] && DigitsOk(x.whole) && (x.whole[0] == 0 ==> |x.whole| == 1) && DigitsOk(x.frac)
    && (x.exp.Some? ==>
          && (x.exp.value.letter == 'e' || x.exp.value.letter == 'E') && x.exp.value.sign in {"", "+", "-"}
          && x.exp.value.digits != [] && DigitsOk(x.exp.value.digits))
  }

  function DigitText(ds: seq<nat>): (w: string)
    requires DigitsOk(ds)
    ensures |w| == |ds|
  {
    seq(|ds|, k requires 0 <= k < |ds| => "0123456789"[ds[k]])
  }

  /** The number that decimal digits stand for. */
  function Amount(ds: seq<nat>): nat {
    if ds == [] then 0 else 10 * Amount(ds[..|ds| - 1]) + ds[|ds| - 1]
  }

  function SignText(negative: bool): string {
    if negative then "-" else ""
  }

  function FracText(ds: seq<nat>): (w: string)
    requires DigitsOk(ds)
    ensures |w| == if ds == [] then 0 else |ds| + 1
  {
    if ds == [] then "" else "." + DigitText(ds)
  }

  function ExpText(e: Option<Exp>): string
    requires e.Some? ==> DigitsOk(e.value.digits)
  {
    match e
    case None => ""
    case Some(e) => [e.letter] + (e.sign + DigitText(e.digits))
  }

  function NumeralText(x: Numeral): string
    requires NumeralOk(x)
  {
    SignText(x.negative) + (DigitText(x.whole) + (FracText(x.frac) + ExpText(x.exp)))
  }

  function Power(e: Option<Exp>): int {
    match e
    case None => 0
    case Some(e) => if e.sign == "-" then 0 - Amount(e.digits) else Amount(e.digits)
  }

  /** All digits make the mantissa; the exponent counts those of the fraction off. */
  function NumeralMeans(x: Numeral): Value {
    var m := Amount(x.whole + x.frac);
    Number(if x.negative then 0 - m else m, Power(x.exp) - |x.frac|)
  }

  /** Text that does not go on with the number in front of it. */
  predicate Ends(c: char) {
    !Digit(c) && c != '.' && c != 'e' && c != 'E'
  }

  lemma DigitHere(s: string, i: nat, ds: seq<nat>, k: nat)
    requires DigitsOk(ds) && Here(s, i, DigitText(ds)) && k < |ds|
    ensures Digit(At(s, i + k)) && At(s, i + k) as int - '0' as int == ds[k]
  {
    HereAt(s, i, DigitText(ds), k);
  }

  /** The digits ds, read behind the digits before. */
  lemma {:induction false} DigitsRead(s: string, i: nat, before: seq<nat>, ds: seq<nat>)
    requires DigitsOk(ds) && Here(s, i, DigitText(ds))
    ensures ReadDigits(s, i, Amount(before)) == ReadDigits(s, i + |ds|, Amount(before + ds))
    decreases |ds|
  {
    if ds == [] {
      assert before + ds == before;
    } else {
      var n := |ds| - 1;
      assert DigitText(ds) == DigitText(ds[..n]) + DigitText([ds[n]]);
      HereSplit(s, i, DigitText(ds[..n]), DigitText([ds[n]]));
      DigitsRead(s, i, before, ds[..n]);
      DigitHere(s, i, ds, n);
      assert (before + ds)[..|before + ds| - 1] == before + ds[..n];
    }
  }

  lemma WholeRead(s: string, i: nat, ds: seq<nat>)
    requires ds != [] && DigitsOk(ds) && (ds[0] == 0 ==> |ds| == 1)
    requires Here(s, i, DigitText(ds)) && !Digit(At(s, i + |ds|))
    ensures Whole(s, i) == (Amount(ds), i + |ds|)
  {
    hide ReadDigits, DigitText;
    DigitHere(s, i, ds, 0);
    DigitsReadAll(s, i, ds);
    if ds[0] == 0 {
      assert ds == [0] && Amount(ds[..0]) == 0;
    }
  }

  lemma FractionRead(s: string, i: nat, before: seq<nat>, ds: seq<nat>)
    requires DigitsOk(ds) && Here(s, i, FracText(ds)) && !Digit(At(s, i + |FracText(ds)|))
    requires At(s, i + |FracText(ds)|) != '.'
    ensures Fraction(s, i, Amount(before)) == (Amount(before + ds), i + |FracText(ds)|)
  {
    if ds == [] {
      assert before + ds == before;
    } else {
      HereSplit(s, i, ".", DigitText(ds));
      HereAt(s, i, ".", 0);
      DigitHere(s, i + 1, ds, 0);
      DigitsRead(s, i + 1, before, ds);
    }
  }

  lemma ExponentRead(s: string, i: nat, x: Numeral)
    requires NumeralOk(x) && Here(s, i, ExpText(x.exp)) && Ends(At(s, i + |ExpText(x.exp)|))
    ensures Exponent(s, i) == (Power(x.exp), i + |ExpText(x.exp)|)
  {
    hide ReadDigits, DigitText, Amount, Here;
    if x.exp.Some? {
      var e := x.exp.value;
      HereSplit(s, i, [e.letter], e.sign + DigitText(e.digits));
      HereSplit(s, i + 1, e.sign, DigitText(e.digits));
      HereAt(s, i, [e.letter], 0);
      if e.sign != "" {
        HereAt(s, i + 1, e.sign, 0);
      }
      DigitHere(s, i + 1 + |e.sign|, e.digits, 0);
      DigitsReadAll(s, i + 1 + |e.sign|, e.digits);
    }
  }

  lemma DigitsReadAll(s: string, i: nat, ds: seq<nat>)
    requires DigitsOk(ds) && Here(s, i, DigitText(ds)) && !Digit(At(s, i + |ds|))
    ensures ReadDigits(s, i, 0) == (Amount(ds), i + |ds|)
  {
    DigitsRead(s, i, [], ds);
    assert [] + ds == ds;
  }

  // What stands behind the whole digits or the fraction is no digit and no point.
  lemma NoDigitNext(s: string, i: nat, x: Numeral)
    requires NumeralOk(x) && Here(s, i, FracText(x.frac) + ExpText(x.exp))
    requires Ends(At(s, i + |FracText(x.frac) + ExpText(x.exp)|))
    ensures Here(s, i, FracText(x.frac)) && Here(s, i + |FracText(x.frac)|, ExpText(x.exp))
    ensures !Digit(At(s, i))
    ensures !Digit(At(s, i + |FracText(x.frac)|)) && At(s, i + |FracText(x.frac)|) != '.'
  {
    HereSplit(s, i, FracText(x.frac), ExpText(x.exp));
    if x.frac != [] {
      HereAt(s, i, FracText(x.frac), 0);
    }
    if x.exp.Some? {
      HereAt(s, i + |FracText(x.frac)|, ExpText(x.exp), 0);
    }
  }

  /** The parser reads every number of the grammar. */
  lemma NumeralReads(s: string, i: nat, x: Numeral)
    requires NumeralOk(x) && Here(s, i, NumeralText(x)) && Ends(At(s, i + |NumeralText(x)|))
    ensures ParseNumber(s, i) == Ok(NumeralMeans(x), i + |NumeralText(x)|)
    ensures At(s, i) == '-' || Digit(At(s, i))
  {
    hide Whole, Fraction, Exponent, DigitText, FracText, ExpText, Amount, Here, Ends, Power;
    var sign, rest := SignText(x.negative), FracText(x.frac) + ExpText(x.exp);
    HereSplit(s, i, sign, DigitText(x.whole) + rest);
    HereSplit(s, i + |sign|, DigitText(x.whole), rest);
    if x.negative {
      HereAt(s, i, sign, 0);
    }
    var j := i + |sign|;
    var k := j + |x.whole|;
    DigitHere(s, j, x.whole, 0);
    NoDigitNext(s, k, x);
    WholeRead(s, j, x.whole);
    FractionRead(s, k, x.whole, x.frac);
    ExponentRead(s, k + |FracText(x.frac)|, x);
  }

  // ----- strings (section 7) -----

  datatype Hex = Hex(d: nat, upper: bool)

  /** A character as it is written in a string: itself, by a letter, by four hexadecimal digits, or by two times four
      for the surrogates of a code point beyond the basic plane. */
  datatype Letter = Itself(c: char) | Short(c: char) | Code(h: seq<Hex>) | Pair(hi: seq<Hex>, lo: seq<Hex>)

  predicate HexOk(h: seq<Hex>) {
    |h| == 4 && forall k :: 0 <= k < 4 ==> h[k].d < 16
  }

  function Unit(h: seq<Hex>): (u: nat)
    requires HexOk(h)
    ensures u < 0x10000
  {
    h[0].d * 4096 + h[1].d * 256 + h[2].d * 16 + h[3].d
  }

  function HexChar(h: Hex): char
    requires h.d < 16
  {
    if h.upper then "0123456789ABCDEF"[h.d] else "0123456789abcdef"[h.d]
  }

  function HexText(h: seq<Hex>): (w: string)
    requires HexOk(h)
    ensures |w| == 4
  {
    [HexChar(h[0]), HexChar(h[1]), HexChar(h[2]), HexChar(h[3])]
  }

  predicate LetterOk(l: Letter) {
    match l
    case Itself(c) => c != '\"' && c != '\\' && c != NUL
    case Short(c) => c in {'\"', '\\', '/', 'b', 'f', 'n', 'r', 't'}
    case Code(h) => HexOk(h) && !(0xD800 <= Unit(h) <= 0xDFFF)
    case Pair(hi, lo) => HexOk(hi) && HexOk(lo) && 0xD800 <= Unit(hi) <= 0xDBFF && 0xDC00 <= Unit(lo) <= 0xDFFF
  }

  function LetterText(l: Letter): (w: string)
    requires LetterOk(l)
    ensures w != ""
  {
    match l
    case Itself(c) => [c]
    case Short(c) => ['\\', c]
    case Code(h) => "\\u" + HexText(h)
    case Pair(hi, lo) => "\\u" + HexText(hi) + ("\\u" + HexText(lo))
  }

  /** The bytes it stands for; the code reads an escaped NUL as nothing. */
  function LetterMeans(l: Letter): string
    requires LetterOk(l)
  {
    match l
    case Itself(c) => [c]
    case Short(c) =>
      if c == 'b' then [8 as char] else if c == 'f' then [12 as char] else if c == 'n' then [10 as char]
      else if c == 'r' then [13 as char] else if c == 't' then [9 as char] else [c]
    case Code(h) => if Unit(h) == 0 then "" else Utf8(Unit(h))
    case Pair(hi, lo) => Utf8(0x10000 + (Unit(hi) - 0xD800) * 0x400 + (Unit(lo) - 0xDC00))
  }

  predicate LettersOk(ls: seq<Letter>) {
    forall k :: 0 <= k < |ls| ==> LetterOk(ls[k])
  }

  function LettersText(ls: seq<Letter>): string
    requires LettersOk(ls)
  {
    if ls == [] then "" else LetterText(ls[0]) + LettersText(ls[1..])
  }

  function LettersMean(ls: seq<Letter>): string
    requires LettersOk(ls)
  {
    if ls == [] then "" else LetterMeans(ls[0]) + LettersMean(ls[1..])
  }

  function StringText(ls: seq<Letter>): (w: string)
    requires LettersOk(ls)
    ensures |w| > 1 && w[0] == '\"'
  {
    "\"" + (LettersText(ls) + "\"")
  }

  lemma HexDigitReads(h: Hex)
    requires h.d < 16
    ensures HexDigit(HexChar(h)) == h.d
  {
  }

  lemma HexReads(s: string, i: nat, h: seq<Hex>)
    requires HexOk(h) && Here(s, i, HexText(h))
    ensures Hex4(s, i) == Unit(h)
  {
    var w := HexText(h);
    HereAt(s, i, w, 0);
    HereAt(s, i, w, 1);
    HereAt(s, i, w, 2);
    HereAt(s, i, w, 3);
    HexDigitReads(h[0]);
    HexDigitReads(h[1]);
    HexDigitReads(h[2]);
    HexDigitReads(h[3]);
    hide HexChar, HexDigit, At, Here;
  }

  lemma CodeReads(s: string, i: nat, h: seq<Hex>)
    requires LetterOk(Code(h)) && Here(s, i, LetterText(Code(h)))
    ensures At(s, i) == '\\' && Unescape(s, i) == (LetterMeans(Code(h)), i + 6)
  {
    hide HexText, Hex4, Utf8;
    HereSplit(s, i, "\\u", HexText(h));
    HereAt(s, i, "\\u", 0);
    HereAt(s, i, "\\u", 1);
    HexReads(s, i + 2, h);
  }

  lemma PairReads(s: string, i: nat, hi: seq<Hex>, lo: seq<Hex>)
    requires LetterOk(Pair(hi, lo)) && Here(s, i, LetterText(Pair(hi, lo)))
    ensures At(s, i) == '\\' && Unescape(s, i) == (LetterMeans(Pair(hi, lo)), i + 12)
  {
    hide HexText, Hex4, Utf8, Unit;
    HereSplit(s, i, "\\u" + HexText(hi), "\\u" + HexText(lo));
    HereSplit(s, i, "\\u", HexText(hi));
    HereSplit(s, i + 6, "\\u", HexText(lo));
    HereAt(s, i, "\\u", 0);
    HereAt(s, i, "\\u", 1);
    HereAt(s, i + 6, "\\u", 0);
    HereAt(s, i + 6, "\\u", 1);
    HexReads(s, i + 2, hi);
    HexReads(s, i + 8, lo);
    PairMath(Unit(hi), Unit(lo));
  }

  lemma PairMath(hi: nat, lo: nat)
    requires 0xD800 <= hi <= 0xDBFF && 0xDC00 <= lo <= 0xDFFF
    ensures 0x10000 + hi % 1024 * 1024 + lo % 1024 == 0x10000 + (hi - 0xD800) * 0x400 + (lo - 0xDC00)
  {
    assert hi % 1024 == hi - 0xD800 && lo % 1024 == lo - 0xDC00;
  }

  lemma LetterReads(s: string, i: nat, l: Letter)
    requires LetterOk(l) && Here(s, i, LetterText(l))
    ensures InString(s, i) && Unescape(s, i) == (LetterMeans(l), i + |LetterText(l)|)
  {
    match l
    case Itself(c) => HereAt(s, i, LetterText(l), 0);
    case Short(c) =>
      HereAt(s, i, LetterText(l), 0);
      HereAt(s, i, LetterText(l), 1);
    case Code(h) => CodeReads(s, i, h);
    case Pair(hi, lo) => PairReads(s, i, hi, lo);
  }

  lemma LettersStep(ls: seq<Letter>)
    requires LettersOk(ls) && ls != []
    ensures LettersText(ls) == LetterText(ls[0]) + LettersText(ls[1..])
    ensures LettersMean(ls) == LetterMeans(ls[0]) + LettersMean(ls[1..])
  {
  }

  lemma NoLetters(s: string, i: nat)
    ensures LettersText([]) == "" && (At(s, i) == '\"' ==> Chars(s, i) == (LettersMean([]), i))
  {
  }

  // The first letter is read, and the others behind it.
  lemma LetterThenRest(s: string, i: nat, ls: seq<Letter>)
    requires LettersOk(ls) && ls != [] && Here(s, i, LettersText(ls))
    ensures var k := i + |LetterText(ls[0])|;
      && Here(s, k, LettersText(ls[1..])) && k + |LettersText(ls[1..])| == i + |LettersText(ls)|
      && Chars(s, i) == (LetterMeans(ls[0]) + Chars(s, k).0, Chars(s, k).1)
  {
    hide LetterText, LetterMeans, Unescape, Here, Chars, InString, At, LetterOk;
    HereSplit(s, i, LetterText(ls[0]), LettersText(ls[1..]));
    LetterReads(s, i, ls[0]);
    CharsOne(s, i);
  }

  lemma {:induction false} LettersRead(s: string, i: nat, ls: seq<Letter>)
    requires LettersOk(ls) && Here(s, i, LettersText(ls)) && At(s, i + |LettersText(ls)|) == '\"'
    ensures Chars(s, i) == (LettersMean(ls), i + |LettersText(ls)|)
    decreases |ls|
  {
    hide LetterText, LetterMeans, LettersText, LettersMean, Here, Chars, At, LetterOk;
    if ls == [] {
      NoLetters(s, i);
    } else {
      LettersStep(ls);
      LetterThenRest(s, i, ls);
      LettersRead(s, i + |LetterText(ls[0])|, ls[1..]);
    }
  }

  /** The parser reads every string of the grammar. */
  lemma StringReads(s: string, i: nat, ls: seq<Letter>)
    requires LettersOk(ls) && Here(s, i, StringText(ls))
    ensures At(s, i) == '\"' && ParseString(s, i) == Ok(LettersMean(ls), i + |StringText(ls)|)
  {
    hide Chars, LettersText, LettersMean, Here;
    HereSplit(s, i, "\"", LettersText(ls) + "\"");
    HereSplit(s, i + 1, LettersText(ls), "\"");
    HereAt(s, i, "\"", 0);
    HereAt(s, i + 1 + |LettersText(ls)|, "\"", 0);
    LettersRead(s, i + 1, ls);
  }

  // ----- values (sections 2 to 5) -----

  /** A value as it is written. White space may stand behind an opening bracket or brace and around the commas,
      colons and closing ones. */
  datatype Doc =
    | Word(value: Value)
    | Numeric(x: Numeral)
    | Text(letters: seq<Letter>)
    | EmptyList(pad: string)
    | List(pad: string, entries: Entries)
    | EmptyRecord(pad: string)
    | Record(pad: string, fields: Fields)

  /** The values of an array with the white space behind each and in front of the next. */
  datatype Entries = LastEntry(doc: Doc, after: string) | Entry(doc: Doc, after: string, before: string, next: Entries)

  /** The members of an object, likewise, with the white space around the colon. */
  datatype Fields =
    | LastField(name: seq<Letter>, nameAfter: string, before: string, doc: Doc, after: string)
    | Field(name: seq<Letter>, nameAfter: string, before: string, doc: Doc, after: string, pad: string, next: Fields)

  predicate Blank(pad: string) {
    forall k :: 0 <= k < |pad| ==> Space(pad[k])
  }

  predicate DocOk(d: Doc) {
    match d
    case Word(v) => v.Null? || v.False? || v.True?
    case Numeric(x) => NumeralOk(x)
    case Text(ls) => LettersOk(ls)
    case EmptyList(pad) => Blank(pad)
    case List(pad, es) => Blank(pad) && EntriesOk(es)
    case EmptyRecord(pad) => Blank(pad)
    case Record(pad, fs) => Blank(pad) && FieldsOk(fs)
  }

  predicate EntriesOk(es: Entries) {
    DocOk(es.doc) && Blank(es.after) && (es.Entry? ==> Blank(es.before) && EntriesOk(es.next))
  }

  predicate FieldsOk(fs: Fields) {
    && LettersOk(fs.name) && Blank(fs.nameAfter) && Blank(fs.before) && DocOk(fs.doc) && Blank(fs.after)
    && (fs.Field? ==> Blank(fs.pad) && FieldsOk(fs.next))
  }

  function WordText(v: Value): string {
    if v.Null? then "null" else if v.False? then "false" else "true"
  }

  function DocText(d: Doc): (w: string)
    requires DocOk(d)
    ensures w != "" && !Space(w[0]) && w[0] != ']' && w[0] != NUL
    decreases d
  {
    match d
    case Word(v) => WordText(v)
    case Numeric(x) => NumeralText(x)
    case Text(ls) => StringText(ls)
    case EmptyList(pad) => "[" + (pad + "]")
    case List(pad, es) => "[" + (pad + EntriesText(es))
    case EmptyRecord(pad) => "{" + (pad + "}")
    case Record(pad, fs) => "{" + (pad + FieldsText(fs))
  }

  /** From a value of an array to its end. */
  function EntriesText(es: Entries): (w: string)
    requires EntriesOk(es)
    ensures w != "" && !Space(w[0]) && w[0] != ']'
    decreases es
  {
    if es.LastEntry? then DocText(es.doc) + (es.after + "]")
    else DocText(es.doc) + (es.after + ("," + (es.before + EntriesText(es.next))))
  }

  function FieldsText(fs: Fields): (w: string)
    requires FieldsOk(fs)
    ensures w != "" && w[0] == '\"'
    decreases fs
  {
    var value := ":" + (fs.before + (DocText(fs.doc) + (fs.after +
      if fs.LastField? then "}" else "," + (fs.pad + FieldsText(fs.next)))));
    StringText(fs.name) + (fs.nameAfter + value)
  }

  function DocMeans(d: Doc): Value
    requires DocOk(d)
  {
    match d
    case Word(v) => v
    case Numeric(x) => NumeralMeans(x)
    case Text(ls) => String(LettersMean(ls))
    case EmptyList(_) => Array(NoItem)
    case List(_, es) => Array(EntriesMean(es))
    case EmptyRecord(_) => Object(NoMember)
    case Record(_, fs) => Object(FieldsMean(fs))
  }

  function EntriesMean(es: Entries): Items
    requires EntriesOk(es)
  {
    Item(DocMeans(es.doc), if es.LastEntry? then NoItem else EntriesMean(es.next))
  }

  function FieldsMean(fs: Fields): Members
    requires FieldsOk(fs)
  {
    Member(LettersMean(fs.name), DocMeans(fs.doc), if fs.LastField? then NoMember else FieldsMean(fs.next))
  }

  // ----- reading values -----

  lemma SkipBefore(s: string, i: nat, pad: string, w: string)
    requires Here(s, i, pad + w) && w != "" && !Space(w[0]) && Blank(pad)
    ensures Skip(s, i) == i + |pad| && Here(s, i + |pad|, w) && At(s, i + |pad|) == w[0]
    ensures pad == "" || Space(At(s, i))
  {
    HereSplit(s, i, pad, w);
    HereAt(s, i + |pad|, w, 0);
    forall k: nat | i <= k < i + |pad|
      ensures Space(At(s, k))
    {
      HereAt(s, i, pad, k - i);
    }
    SkipTo(s, i, i + |pad|);
  }

  // What stands behind w: white space and then rest.
  lemma Behind(s: string, i: nat, w: string, pad: string, rest: string)
    requires Here(s, i, w + (pad + rest)) && rest != "" && !Space(rest[0]) && Blank(pad)
    ensures var k := i + |w|;
      && Here(s, i, w) && Skip(s, k) == k + |pad| && Here(s, k + |pad|, rest) && At(s, k + |pad|) == rest[0]
      && (Ends(rest[0]) ==> Ends(At(s, k)))
  {
    HereSplit(s, i, w, pad + rest);
    SkipBefore(s, i + |w|, pad, rest);
  }

  // Any value that is no keyword is read by the branch its first character selects.
  lemma FirstDecides(s: string, i: nat)
    requires At(s, i) in {'\"', '-', '[', '{'} || Digit(At(s, i))
    ensures !Here(s, i, "null") && !Here(s, i, "false") && !Here(s, i, "true")
  {
    assert "null"[0] == 'n' && "false"[0] == 'f' && "true"[0] == 't';
  }

  lemma WordReads(s: string, i: nat, v: Value)
    requires (v.Null? || v.False? || v.True?) && Here(s, i, WordText(v))
    ensures ParseValue(s, i) == Ok(v, i + |WordText(v)|)
  {
    var w := WordText(v);
    assert s[i + 0] == w[0];
    assert Here(s, i, "null") ==> s[i + 0] == "null"[0];
    assert Here(s, i, "false") ==> s[i + 0] == "false"[0];
  }

  lemma LastItem(s: string, i: nat, v: Value, k: nat)
    requires ParseValue(s, Skip(s, i)) == Ok(v, k) && At(s, Skip(s, k)) == ']'
    ensures ParseItems(s, i) == Ok(Item(v, NoItem), Skip(s, k) + 1)
  {
    hide ParseValue;
  }

  lemma MoreItems(s: string, i: nat, v: Value, k: nat, rest: Items, end: nat)
    requires ParseValue(s, Skip(s, i)) == Ok(v, k) && At(s, Skip(s, k)) == ','
    requires ParseItems(s, Skip(s, k) + 1) == Ok(rest, end)
    ensures ParseItems(s, i) == Ok(Item(v, rest), end)
  {
    hide ParseValue;
  }

  lemma LastMember(s: string, i: nat, name: string, n: nat, v: Value, k: nat)
    requires ParseName(s, i) == Ok(name, n) && ParseValue(s, Skip(s, n)) == Ok(v, k) && At(s, Skip(s, k)) == '}'
    ensures ParseMembers(s, i) == Ok(Member(name, v, NoMember), Skip(s, k) + 1)
  {
    hide ParseName, ParseValue;
  }

  lemma MoreMembers(s: string, i: nat, name: string, n: nat, v: Value, k: nat, rest: Members, end: nat)
    requires ParseName(s, i) == Ok(name, n) && ParseValue(s, Skip(s, n)) == Ok(v, k)
    requires At(s, Skip(s, k)) == ',' && ParseMembers(s, Skip(s, k) + 1) == Ok(rest, end)
    ensures ParseMembers(s, i) == Ok(Member(name, v, rest), end)
  {
    hide ParseName, ParseValue;
  }

  /** The parser reads every way a value may be written, anywhere in a text, and stops right behind it. */
  lemma {:induction false} DocReads(s: string, i: nat, d: Doc)
    requires DocOk(d) && Here(s, i, DocText(d)) && (d.Numeric? ==> Ends(At(s, i + |DocText(d)|)))
    ensures ParseValue(s, i) == Ok(DocMeans(d), i + |DocText(d)|)
    decreases d, 1
  {
    hide ParseArray, ParseObject, ParseString, ParseNumber, Here, NumeralText, NumeralMeans, StringText, LettersMean,
      EntriesText, EntriesMean, FieldsText, FieldsMean;
    HereAt(s, i, DocText(d), 0);
    match d
    case Word(v) => WordReads(s, i, v);
    case Numeric(x) =>
      NumeralReads(s, i, x);
      FirstDecides(s, i);
    case Text(ls) =>
      StringReads(s, i, ls);
      FirstDecides(s, i);
    case EmptyList(_) =>
      FirstDecides(s, i);
      ListReads(s, i, d);
    case List(_, _) =>
      FirstDecides(s, i);
      ListReads(s, i, d);
    case EmptyRecord(_) =>
      FirstDecides(s, i);
      RecordReads(s, i, d);
    case Record(_, _) =>
      FirstDecides(s, i);
      RecordReads(s, i, d);
  }

  lemma {:induction false} ListReads(s: string, i: nat, d: Doc)
    requires DocOk(d) && (d.EmptyList? || d.List?) && Here(s, i, DocText(d)) && At(s, i) == '['
    ensures ParseArray(s, i) == Ok(DocMeans(d), i + |DocText(d)|)
    decreases d, 0
  {
    hide ParseItems, EntriesText, EntriesMean, Here;
    var rest := if d.List? then EntriesText(d.entries) else "]";
    Behind(s, i, "[", d.pad, rest);
    if d.List? {
      EntriesStart(d.entries);
      SkipTo(s, i + 1 + |d.pad|, i + 1 + |d.pad|);
      EntriesRead(s, i + 1 + |d.pad|, i + 1 + |d.pad|, d.entries);
    }
  }

  lemma EntriesStart(es: Entries)
    requires EntriesOk(es)
    ensures var w := EntriesText(es); w != "" && !Space(w[0]) && w[0] != ']'
  {
  }

  // What stands behind a value of an array at j: the end of it, or a comma and the next value at m.
  lemma EntryPlaced(s: string, j: nat, es: Entries) returns (k: nat, m: nat)
    requires EntriesOk(es) && Here(s, j, EntriesText(es))
    ensures Here(s, j, DocText(es.doc)) && Skip(s, j + |DocText(es.doc)|) == k && Ends(At(s, j + |DocText(es.doc)|))
    ensures es.LastEntry? ==> At(s, k) == ']' && k + 1 == j + |EntriesText(es)|
    ensures es.Entry? ==>
      && At(s, k) == ',' && Skip(s, k + 1) == m && Here(s, m, EntriesText(es.next))
      && m + |EntriesText(es.next)| == j + |EntriesText(es)|
  {
    hide DocText, Here, Skip;
    var w := DocText(es.doc);
    k := j + |w| + |es.after|;
    m := k;
    if es.LastEntry? {
      Behind(s, j, w, es.after, "]");
    } else {
      var more := EntriesText(es.next);
      Behind(s, j, w, es.after, "," + (es.before + more));
      EntriesStart(es.next);
      Behind(s, k, ",", es.before, more);
      m := k + 1 + |es.before|;
    }
  }

  lemma {:induction false} EntriesRead(s: string, i: nat, j: nat, es: Entries)
    requires EntriesOk(es) && Skip(s, i) == j && Here(s, j, EntriesText(es))
    ensures ParseItems(s, i) == Ok(EntriesMean(es), j + |EntriesText(es)|)
    decreases es
  {
    hide ParseItems, ParseValue, DocText, DocMeans, Here, Skip, At, EntriesText;
    var k, m := EntryPlaced(s, j, es);
    DocReads(s, j, es.doc);
    var e := j + |DocText(es.doc)|;
    if es.LastEntry? {
      LastItem(s, i, DocMeans(es.doc), e);
    } else {
      EntriesRead(s, k + 1, m, es.next);
      MoreItems(s, i, DocMeans(es.doc), e, EntriesMean(es.next), j + |EntriesText(es)|);
    }
  }

  lemma {:induction false} RecordReads(s: string, i: nat, d: Doc)
    requires DocOk(d) && (d.EmptyRecord? || d.Record?) && Here(s, i, DocText(d)) && At(s, i) == '{'
    ensures ParseObject(s, i) == Ok(DocMeans(d), i + |DocText(d)|)
    decreases d, 0
  {
    hide ParseMembers, FieldsText, FieldsMean, Here;
    var rest := if d.Record? then FieldsText(d.fields) else "}";
    Behind(s, i, "{", d.pad, rest);
    if d.Record? {
      SkipTo(s, i + 1 + |d.pad|, i + 1 + |d.pad|);
      FieldsRead(s, i + 1 + |d.pad|, i + 1 + |d.pad|, d.fields);
    }
  }

  // From the value of a member on.
  function FieldTail(fs: Fields): (w: string)
    requires FieldsOk(fs)
    ensures w != "" && (w[0] == '}' || w[0] == ',')
  {
    if fs.LastField? then "}" else "," + (fs.pad + FieldsText(fs.next))
  }

  lemma NameReads(s: string, i: nat, j: nat, ls: seq<Letter>, after: string, before: string, rest: string)
    requires LettersOk(ls) && Blank(after) && Blank(before) && rest != "" && !Space(rest[0]) && Skip(s, i) == j
    requires Here(s, j, StringText(ls) + (after + (":" + (before + rest))))
    ensures var n := j + |StringText(ls)| + |after| + 1;
      && ParseName(s, i) == Ok(LettersMean(ls), n)
      && Skip(s, n) == n + |before| && Here(s, n + |before|, rest)
  {
    hide StringText, Here, ParseString, Skip;
    Behind(s, j, StringText(ls), after, ":" + (before + rest));
    StringReads(s, j, ls);
    Behind(s, j + |StringText(ls)| + |after|, ":", before, rest);
  }

  lemma FieldsSplit(fs: Fields)
    requires FieldsOk(fs)
    ensures FieldsText(fs) ==
      StringText(fs.name) + (fs.nameAfter + (":" + (fs.before + (DocText(fs.doc) + (fs.after + FieldTail(fs))))))
  {
    hide StringText, DocText;
  }

  /** Where the parts of a member stand: its name and colon end at n, its value stands at v, and what follows at k. */
  ghost predicate Placed(s: string, i: nat, fs: Fields, n: nat, v: nat, k: nat)
    requires FieldsOk(fs)
  {
    && ParseName(s, i) == Ok(LettersMean(fs.name), n) && Skip(s, n) == v && Here(s, v, DocText(fs.doc))
    && Skip(s, v + |DocText(fs.doc)|) == k && Here(s, k, FieldTail(fs)) && At(s, k) == FieldTail(fs)[0]
    && Ends(At(s, v + |DocText(fs.doc)|))
  }

  lemma FieldPlaced(s: string, i: nat, j: nat, fs: Fields) returns (n: nat, v: nat, k: nat)
    requires FieldsOk(fs) && Skip(s, i) == j && Here(s, j, FieldsText(fs))
    ensures Placed(s, i, fs, n, v, k) && k + |FieldTail(fs)| == j + |FieldsText(fs)|
  {
    hide ParseName, DocText, Here, Skip, StringText, LettersMean, FieldsText, FieldTail;
    FieldsSplit(fs);
    var w, tail := DocText(fs.doc), FieldTail(fs);
    NameReads(s, i, j, fs.name, fs.nameAfter, fs.before, w + (fs.after + tail));
    n := j + |StringText(fs.name)| + |fs.nameAfter| + 1;
    v := n + |fs.before|;
    k := v + |w| + |fs.after|;
    Behind(s, v, w, fs.after, tail);
  }

  lemma TailIs(s: string, k: nat, fs: Fields)
    requires FieldsOk(fs) && Here(s, k, FieldTail(fs))
    ensures fs.LastField? ==> FieldTail(fs) == "}"
    ensures fs.Field? ==>
      var j := k + 1 + |fs.pad|;
      && FieldTail(fs)[0] == ',' && Skip(s, k + 1) == j && Here(s, j, FieldsText(fs.next))
      && k + |FieldTail(fs)| == j + |FieldsText(fs.next)|
  {
    hide FieldsText, Here, Skip;
    if fs.Field? {
      FieldsStart(fs.next);
      Behind(s, k, ",", fs.pad, FieldsText(fs.next));
    }
  }

  lemma {:induction false} FieldsRead(s: string, i: nat, j: nat, fs: Fields)
    requires FieldsOk(fs) && Skip(s, i) == j && Here(s, j, FieldsText(fs))
    ensures ParseMembers(s, i) == Ok(FieldsMean(fs), j + |FieldsText(fs)|)
    decreases fs
  {
    hide ParseMembers, ParseValue, ParseName, DocText, DocMeans, Here, Skip, At, LettersMean, FieldsText, FieldTail;
    var n, v, k := FieldPlaced(s, i, j, fs);
    TailIs(s, k, fs);
    DocReads(s, v, fs.doc);
    var e := v + |DocText(fs.doc)|;
    if fs.LastField? {
      LastMember(s, i, LettersMean(fs.name), n, DocMeans(fs.doc), e);
    } else {
      FieldsRead(s, k + 1, k + 1 + |fs.pad|, fs.next);
      MoreMembers(s, i, LettersMean(fs.name), n, DocMeans(fs.doc), e, FieldsMean(fs.next), j + |FieldsText(fs)|);
    }
  }

  lemma FieldsStart(fs: Fields)
    requires FieldsOk(fs)
    ensures FieldsText(fs) != "" && FieldsText(fs)[0] == '\"'
  {
  }

  /** The text is one of the ways to write the value. */
  ghost predicate Renders(v: Value, w: string) {
    exists d :: DocOk(d) && DocText(d) == w && DocMeans(d) == v
  }

  /** Whatever way a value is written, it is read back, and the text behind it is left unread. */
  lemma RenderedReads(s: string, i: nat, v: Value, w: string)
    requires Renders(v, w) && Here(s, i, w) && (v.Number? ==> Ends(At(s, i + |w|)))
    ensures ParseValue(s, i) == Ok(v, i + |w|)
  {
    hide DocText, ParseValue, Here;
    var d :| DocOk(d) && DocText(d) == w && DocMeans(d) == v;
    DocReads(s, i, d);
  }
}
