/** What print_value writes. */
module JsonPrint {
  import opened JsonText
  import opened JsonValue

  function DigitOf(d: nat): char
    requires d < 10
  {
    '0' + d as char
  }

  /** Decimal digits without leading zeros. */
  function Digits(n: nat): (r: string)
    ensures |r| > 0 && forall k :: 0 <= k < |r| ==> Digit(r[k])
    ensures n > 0 ==> r[0] != '0'
  {
    if n < 10 then [DigitOf(n)] else Digits(n / 10) + [DigitOf(n % 10)]
  }

  function Decimal(n: int): string {
    if n < 0 then "-" + Digits(-n) else Digits(n)
  }

  function HexOf(d: nat): char
    requires d < 16
  {
    if d < 10 then '0' + d as char else 'a' + (d - 10) as char
  }

  predicate Raw(c: char) {
    c as int > 31 && c != '\"' && c != '\\'
  }

  /** One character of a string, escaped where section 7 of RFC 8259 demands it. */
  function Escape(c: char): string {
    if Raw(c) then [c]
    else if c == '\\' then "\\\\"
    else if c == '\"' then "\\\""
    else if c == 8 as char then "\\b"
    else if c == 12 as char then "\\f"
    else if c == '\n' then "\\n"
    else if c == '\r' then "\\r"
    else if c == '\t' then "\\t"
    else "\\u00" + [HexOf(c as int / 16), HexOf(c as int % 16)]
  }

  function Escaped(s: string): string {
    if s == "" then "" else Escape(s[0]) + Escaped(s[1..])
  }

  function Quoted(s: string): string {
    "\"" + Escaped(s) + "\""
  }

  function Tabs(n: int): (r: string)
    ensures |r| == (if n < 0 then 0 else n) && forall k :: 0 <= k < |r| ==> r[k] == '\t'
  {
    seq(if n < 0 then 0 else n, _ => '\t')
  }

  function Print(v: Value, depth: nat, fmt: bool): (r: string)
    requires Plain(v)
    ensures |r| > 0 && !Space(r[0]) && r[0] != ']' && r[0] != NUL
    decreases v
  {
    match v
    case Null => "null"
    case False => "false"
    case True => "true"
    case Number(m, _) => Decimal(m)
    case String(s) => Quoted(s)
    case Array(items) => if items.NoItem? then "[]" else "[" + PrintItems(items, depth + 1, fmt) + "]"
    case Object(members) =>
      if members.NoMember? then "{" + (if fmt then "\n" + Tabs(depth - 1) else "") + "}"
      else
        "{" + (if fmt then "\n" else "") + PrintMembers(members, depth + 1, fmt)
        + (if fmt then Tabs(depth) else "") + "}"
  }

  function PrintItems(items: Items, depth: nat, fmt: bool): string
    requires items.Item? && PlainItems(items)
    decreases items
  {
    if items.next.NoItem? then Print(items.value, depth, fmt)
    else Print(items.value, depth, fmt) + (if fmt then ", " else ",") + PrintItems(items.next, depth, fmt)
  }

  /** What stands in front of the value of a member. */
  function Label(name: string, depth: nat, fmt: bool): string {
    (if fmt then Tabs(depth) else "") + Quoted(name) + ":" + (if fmt then "\t" else "")
  }

  /** What stands behind it. */
  function After(last: bool, fmt: bool): string {
    (if last then "" else ",") + (if fmt then "\n" else "")
  }

  function PrintMembers(members: Members, depth: nat, fmt: bool): string
    requires PlainMembers(members)
    decreases members
  {
    if members.NoMember? then ""
    else
      Label(members.name, depth, fmt) + Print(members.value, depth, fmt)
      + After(members.next.NoMember?, fmt) + PrintMembers(members.next, depth, fmt)
  }
}
