/** A parsed JSON value, reduced to what the generator looks at: its kind,
    the characters of a string, the elements of an array and the entries of
    an object in iteration order. Numbers carry no payload because only
    their kind decides anything. */
module JsonValue {

  datatype Json =
    | JNull
    | JBool(b: bool)
    | JNum
    | JStr(s: string)
    | JArr(items: seq<Json>)
    | JObj(entries: seq<(string, Json)>)

  /** JavaScript's `typeof` of a present value. */
  function TypeOf(v: Json): string
  {
    match v
    case JStr(_) => "string"
    case JNum => "number"
    case JBool(_) => "boolean"
    case _ => "object"
  }

  /** `typeof v === 'object' && v !== null`: an array or an object. */
  predicate IsComposite(v: Json)
  {
    v.JArr? || v.JObj?
  }

  function DecimalDigit(d: nat): char
    requires d < 10
  {
    "0123456789"[d]
  }

  /** The decimal text of an index, as used for array and string keys. */
  function NatToString(n: nat): string
    decreases n
  {
    if n < 10 then [DecimalDigit(n)] else NatToString(n / 10) + [DecimalDigit(n % 10)]
  }

  /** `Object.entries(v)` for every value except `null` (on which it throws).
      Arrays and strings are keyed by their indices; booleans and numbers
      have no entries. */
  function Entries(v: Json): seq<(string, Json)>
  {
    match v
    case JObj(entries) => entries
    case JArr(items) => seq(|items|, k requires 0 <= k < |items| => (NatToString(k), items[k]))
    // one entry per code point; JavaScript has one per UTF-16 code unit
    case JStr(s) => seq(|s|, k requires 0 <= k < |s| => (NatToString(k), JStr([s[k]])))
    case _ => []
  }
}
