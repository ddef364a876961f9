/**
 * A JavaScript value as it arrives from a JSON column or lives in screen
 * state, with the conversions the screens apply to it: `String(v)` (what
 * a template literal prints) and object spread.
 */
module JsValue {
  import opened Wrappers
  import opened Text
  import opened Records

  /** Numbers are integers here; objects keep their entries in order. */
  datatype Json =
    | JUndefined
    | JNull
    | JBool(b: bool)
    | JNum(n: int)
    | JStr(s: string)
    | JArr(items: seq<Json>)
    | JObj(entries: Entries<Json>)

  /** `null` or `undefined`. */
  predicate IsNullish(v: Json) {
    v.JUndefined? || v.JNull?
  }

  /**
   * `String(v)`, which is what `${v}` prints. An array prints its elements
   * joined by "," with null and undefined elements printed as nothing; a
   * plain object prints as "[object Object]".
   */
  function TemplateString(v: Json): (r: string)
    ensures v.JStr? ==> r == v.s
    ensures v.JNum? ==> ParseInt(r) == Some(v.n)
    ensures v.JArr? && |v.items| == 0 ==> r == ""
  {
    match v
    case JUndefined => "undefined"
    case JNull => "null"
    case JBool(b) => if b then "true" else "false"
    case JNum(n) => ParseIntOfIntToString(n); IntToString(n)
    case JStr(s) => s
    case JArr(items) =>
      Join(seq(|items|, i requires 0 <= i < |items| =>
        if IsNullish(items[i]) then "" else TemplateString(items[i])), ",")
    case JObj(_) => "[object Object]"
  }

  /**
   * The own enumerable entries spread by `{...v}`: an object's entries, an
   * array's or a string's elements under their indices, nothing for the
   * other values.
   */
  function SpreadEntries(v: Json): (r: Entries<Json>)
    ensures v.JObj? ==> r == v.entries
    ensures v.JArr? ==> |r| == |v.items|
    ensures v.JStr? ==> |r| == |v.s|
    ensures !v.JObj? && !v.JArr? && !v.JStr? ==> r == []
  {
    match v
    case JObj(entries) => entries
    case JArr(items) => seq(|items|, i requires 0 <= i < |items| => (NatToString(i), items[i]))
    case JStr(s) => seq(|s|, i requires 0 <= i < |s| => (NatToString(i), JStr([s[i]])))
    case _ => []
  }
}
