/** JSON values as they travel through `localStorage` (`JSON.stringify` / `JSON.parse`),
    with the JavaScript coercions the extension's code applies to them. */
module JsonValues {
  import opened Wrappers
  import opened Strings

  datatype Json =
    | JNull
    | JBool(b: bool)
    | JNum(n: int)
    | JStr(s: string)
    | JArr(items: seq<Json>)
    | JObj(members: seq<Member>)

  datatype Member = Member(key: string, value: Json)

  /** A JavaScript value as `JSON.stringify` sees it: `undefined` has no JSON text. */
  datatype Value = Undefined | Defined(json: Json)

  /** JavaScript truthiness (`if (x)`, `x && y`). */
  predicate Truthy(j: Json) {
    match j
    case JNull => false
    case JBool(b) => b
    case JNum(n) => n != 0
    case JStr(s) => s != ""
    case JArr(_) => true
    case JObj(_) => true
  }

  /** `obj[key]` on a parsed object: the first member with that key. */
  function Lookup(members: seq<Member>, key: string): (r: Option<Json>)
    ensures r.Some? <==> exists i :: 0 <= i < |members| && members[i].key == key
    ensures r.Some? ==> exists i :: 0 <= i < |members| && members[i] == Member(key, r.value)
  {
    if |members| == 0 then None
    else if members[0].key == key then Some(members[0].value)
    else
      var r := Lookup(members[1..], key);
      assert forall i :: 0 < i < |members| ==> members[i] == members[1..][i - 1];
      r
  }

  /** The keys of an object, in order. */
  function Keys(members: seq<Member>): seq<string> {
    seq(|members|, i requires 0 <= i < |members| => members[i].key)
  }

  function IntToString(n: int): string {
    if n < 0 then "-" + NatToString(-n) else NatToString(n)
  }

  /** `String(j)`: the text JavaScript's `+` produces when `j` meets a string. */
  function JsString(j: Json): string
    decreases j, 1
  {
    match j
    case JNull => "null"
    case JBool(b) => if b then "true" else "false"
    case JNum(n) => IntToString(n)
    case JStr(s) => s
    case JArr(items) => JoinElements(items)
    case JObj(_) => "[object Object]"
  }

  /** `Array.prototype.join(",")`: `null` elements render as the empty string. */
  function JoinElements(items: seq<Json>): string
    decreases items, 0
  {
    if |items| == 0 then ""
    else
      var head := if items[0].JNull? then "" else JsString(items[0]);
      if |items| == 1 then head else head + "," + JoinElements(items[1..])
  }
}
