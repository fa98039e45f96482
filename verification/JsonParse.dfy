/** What parse_value reads: a recursive descent over the text. */
module JsonParse {
  import opened JsonText
  import opened JsonValue

  /** The value read and the position behind it, or the position the error pointer is left at. */
  datatype Parsed<T> = Ok(value: T, next: nat) | Err(at: nat)

  function HexDigit(c: char): (d: int)
    ensures -1 <= d < 16
  {
    if '0' <= c <= '9' then c as int - '0' as int
    else if 'A' <= c <= 'F' then 10 + (c as int - 'A' as int)
    else if 'a' <= c <= 'f' then 10 + (c as int - 'a' as int)
    else -1
  }

  /** Four hexadecimal digits, or 0 when one of them is not a digit. */
  function Hex4(s: string, i: nat): (h: nat)
    ensures h < 0x10000
  {
    var a, b, c, d := HexDigit(At(s, i)), HexDigit(At(s, i + 1)), HexDigit(At(s, i + 2)), HexDigit(At(s, i + 3));
    if a < 0 || b < 0 || c < 0 || d < 0 then 0 else ((a * 16 + b) * 16 + c) * 16 + d
  }

  function Byte(b: nat): char
    requires b < 256
  {
    b as char
  }

  /** A continuation byte: the low six bits under the mark 10. */
  function Low6(uc: nat): char {
    Byte(128 + uc % 64)
  }

  /** Code point to UTF-8, the way the fall-through switch fills the bytes from the last. */
  function Utf8(uc: nat): string
    requires uc < 0x110000
  {
    if uc < 0x80 then [Byte(uc)]
    else if uc < 0x800 then [Byte(0xC0 + uc / 64), Low6(uc)]
    else if uc < 0x10000 then [Byte(0xE0 + uc / 4096), Low6(uc / 64), Low6(uc)]
    else [Byte(0xF0 + uc / 262144), Low6(uc / 4096), Low6(uc / 64), Low6(uc)]
  }

  predicate HighSurrogate(uc: nat) {
    0xD800 <= uc <= 0xDBFF
  }

  predicate LowSurrogate(uc: nat) {
    0xDC00 <= uc <= 0xDFFF
  }

  /** An escape whose u stands at p; an invalid one is dropped. */
  function Unicode(s: string, p: nat): (string, nat) {
    var uc := Hex4(s, p + 1);
    if LowSurrogate(uc) || uc == 0 then ("", p + 5)
    else if !HighSurrogate(uc) then (Utf8(uc), p + 5)
    else if At(s, p + 5) != '\\' || At(s, p + 6) != 'u' then ("", p + 5)
    else
      var uc2 := Hex4(s, p + 7);
      if LowSurrogate(uc2) then (Utf8(0x10000 + uc % 1024 * 1024 + uc2 % 1024), p + 11) else ("", p + 11)
  }

  /** The bytes one character or escape at i stands for, and the position behind it. */
  function Unescape(s: string, i: nat): (r: (string, nat))
    ensures i < r.1
  {
    if At(s, i) != '\\' then ([At(s, i)], i + 1)
    else
      match At(s, i + 1)
      case 'b' => ([8 as char], i + 2)
      case 'f' => ([12 as char], i + 2)
      case 'n' => ("\n", i + 2)
      case 'r' => ("\r", i + 2)
      case 't' => ("\t", i + 2)
      case 'u' => Unicode(s, i + 1)
      case c => ([c], i + 2)
  }

  predicate InString(s: string, i: nat) {
    At(s, i) != '\"' && At(s, i) != NUL
  }

  /** The content of a string from i to its closing quote or the end of the text. */
  function Chars(s: string, i: nat): (r: (string, nat))
    ensures i <= r.1 && !InString(s, r.1)
    decreases |s| - i
  {
    if InString(s, i) then
      var c := Unescape(s, i);
      var rest := Chars(s, c.1);
      (c.0 + rest.0, rest.1)
    else ("", i)
  }

  lemma CharsOne(s: string, i: nat)
    requires InString(s, i)
    ensures var c := Unescape(s, i); Chars(s, i) == (c.0 + Chars(s, c.1).0, Chars(s, c.1).1)
  {
    hide Unescape;
  }

  function ParseString(s: string, i: nat): (r: Parsed<string>)
    ensures r.Ok? ==> i < r.next
  {
    if At(s, i) != '\"' then Err(i)
    else
      var c := Chars(s, i + 1);
      Ok(c.0, if At(s, c.1) == '\"' then c.1 + 1 else c.1)
  }

  /** The digits from i on, appended to the number n. */
  function ReadDigits(s: string, i: nat, n: nat): (r: (nat, nat))
    ensures i <= r.1 && !Digit(At(s, r.1))
    decreases |s| - i
  {
    if Digit(At(s, i)) then ReadDigits(s, i + 1, 10 * n + (At(s, i) as int - '0' as int)) else (n, i)
  }

  /** Fraction: the mantissa with its digits appended, their number, and the position behind them. */
  function Fraction(s: string, i: nat, n: nat): (r: (nat, nat))
    ensures i <= r.1
  {
    if At(s, i) == '.' && Digit(At(s, i + 1)) then ReadDigits(s, i + 1, n) else (n, i)
  }

  function Signed(negative: bool, n: int): int {
    if negative then -n else n
  }

  function Exponent(s: string, i: nat): (r: (int, nat))
    ensures i <= r.1
  {
    if At(s, i) == 'e' || At(s, i) == 'E' then
      if At(s, i + 1) == '+' then ReadDigits(s, i + 2, 0)
      else if At(s, i + 1) == '-' then var d := ReadDigits(s, i + 2, 0); (Signed(true, d.0), d.1)
      else ReadDigits(s, i + 1, 0)
    else (0, i)
  }

  function Whole(s: string, i: nat): (r: (nat, nat))
    ensures i <= r.1
    ensures Digit(At(s, i)) ==> i < r.1
  {
    var j := if At(s, i) == '0' then i + 1 else i;
    if '1' <= At(s, j) <= '9' then ReadDigits(s, j, 0) else (0, j)
  }

  function ParseNumber(s: string, i: nat): (r: Parsed<Value>)
    ensures r.Ok? && i <= r.next
    ensures Digit(At(s, i)) || At(s, i) == '-' ==> i < r.next
  {
    var j := if At(s, i) == '-' then i + 1 else i;
    var whole := Whole(s, j);
    var frac := Fraction(s, whole.1, whole.0);
    var exp := Exponent(s, frac.1);
    var scale := if frac.1 == whole.1 then 0 else frac.1 - whole.1 - 1;
    Ok(Number(Signed(At(s, i) == '-', frac.0), exp.0 - scale), exp.1)
  }

  function ParseValue(s: string, i: nat): (r: Parsed<Value>)
    ensures r.Ok? ==> i < r.next
    decreases |s| - i, 2
  {
    if Here(s, i, "null") then Ok(Null, i + 4)
    else if Here(s, i, "false") then Ok(False, i + 5)
    else if Here(s, i, "true") then Ok(True, i + 4)
    else if At(s, i) == '\"' then
      var t := ParseString(s, i);
      if t.Ok? then Ok(String(t.value), t.next) else Err(t.at)
    else if At(s, i) == '-' || Digit(At(s, i)) then ParseNumber(s, i)
    else if At(s, i) == '[' then ParseArray(s, i)
    else if At(s, i) == '{' then ParseObject(s, i)
    else Err(i)
  }

  function ParseArray(s: string, i: nat): (r: Parsed<Value>)
    requires At(s, i) == '['
    ensures r.Ok? ==> i < r.next
    decreases |s| - i, 1
  {
    var j := Skip(s, i + 1);
    if At(s, j) == ']' then Ok(Array(NoItem), j + 1)
    else
      var items := ParseItems(s, j);
      if items.Ok? then Ok(Array(items.value), items.next) else Err(items.at)
  }

  /** The rest of an array from the position of a value. */
  function ParseItems(s: string, i: nat): (r: Parsed<Items>)
    ensures r.Ok? ==> i < r.next
    decreases |s| - i, 3
  {
    var v := ParseValue(s, Skip(s, i));
    if v.Err? then Err(v.at)
    else
      var j := Skip(s, v.next);
      if At(s, j) == ',' then
        var rest := ParseItems(s, j + 1);
        if rest.Ok? then Ok(Item(v.value, rest.value), rest.next) else Err(rest.at)
      else if At(s, j) == ']' then Ok(Item(v.value, NoItem), j + 1)
      else Err(j)
  }

  function ParseObject(s: string, i: nat): (r: Parsed<Value>)
    requires At(s, i) == '{'
    ensures r.Ok? ==> i < r.next
    decreases |s| - i, 1
  {
    var j := Skip(s, i + 1);
    if At(s, j) == '}' then Ok(Object(NoMember), j + 1)
    else
      var members := ParseMembers(s, j);
      if members.Ok? then Ok(Object(members.value), members.next) else Err(members.at)
  }

  /** A name and its colon; the result is the position behind the colon. */
  function ParseName(s: string, i: nat): (r: Parsed<string>)
    ensures r.Ok? ==> i < r.next
  {
    var name := ParseString(s, Skip(s, i));
    if name.Err? then name
    else
      var j := Skip(s, name.next);
      if At(s, j) == ':' then Ok(name.value, j + 1) else Err(j)
  }

  function ParseMembers(s: string, i: nat): (r: Parsed<Members>)
    ensures r.Ok? ==> i < r.next
    decreases |s| - i, 3
  {
    var name := ParseName(s, i);
    if name.Err? then Err(name.at)
    else
      var v := ParseValue(s, Skip(s, name.next));
      if v.Err? then Err(v.at)
      else
        var j := Skip(s, v.next);
        if At(s, j) == ',' then
          var rest := ParseMembers(s, j + 1);
          if rest.Ok? then Ok(Member(name.value, v.value, rest.value), rest.next) else Err(rest.at)
        else if At(s, j) == '}' then Ok(Member(name.value, v.value, NoMember), j + 1)
        else Err(j)
  }
}
