/** Items as the parser builds them and the printer takes them: a list of children hangs off every
    array and object, linked by next. */
module JsonValue {
  import opened JsonText

  /** A number is mantissa * 10^exponent, before it is rounded to a double. */
  datatype Value =
    | Null | False | True
    | Number(mantissa: int, exponent: int)
    | String(text: string)
    | Array(items: Items)
    | Object(members: Members)

  datatype Items = NoItem | Item(value: Value, next: Items)

  datatype Members = NoMember | Member(name: string, value: Value, next: Members)

  const INT_MIN: int := -0x8000_0000
  const INT_MAX: int := 0x7FFF_FFFF

  predicate Terminated(s: string) {
    forall i :: 0 <= i < |s| ==> s[i] != NUL
  }

  /** Built from null, booleans, 32-bit integers, NUL-free strings, arrays and objects. */
  predicate Plain(v: Value) {
    match v
    case Number(m, e) => INT_MIN <= m <= INT_MAX && e == 0
    case String(s) => Terminated(s)
    case Array(items) => PlainItems(items)
    case Object(members) => PlainMembers(members)
    case _ => true
  }

  predicate PlainItems(items: Items) {
    items.Item? ==> Plain(items.value) && PlainItems(items.next)
  }

  predicate PlainMembers(members: Members) {
    members.Member? ==> Terminated(members.name) && Plain(members.value) && PlainMembers(members.next)
  }
}
