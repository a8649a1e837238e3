/** The shared document every frame reads and writes through `localStorage`
    (`replaceVm`, `assignVm`, `getVm` and the `objGet` path reader). The store is a
    single JSON document; writes overwrite it, last writer wins. */
module Bridge {
  import opened Wrappers
  import opened Strings
  import opened JsonValues

  /** The stored document; `None` until the first `replaceVm`. */
  datatype Store = Store(doc: Option<Json>)

  /** `JSON.parse(localStorage.getItem(key))`: a missing entry parses as `null`. */
  function Parsed(st: Store): Json {
    match st.doc
    case None => JNull
    case Some(j) => j
  }

  /** `replaceVm(replacement)`: overwrites the whole document. */
  function ReplaceVm(st: Store, replacement: Json): (r: Store)
    ensures Parsed(r) == replacement
  {
    Store(Some(replacement))
  }

  /** The result of reading a property path: a value, `undefined`, or a `TypeError`
      from reading a property of `null`/`undefined`. */
  datatype PathValue = Found(j: Json) | Undef | Crash

  function RemoveChar(s: string, c: char): (r: string)
    ensures c !in r
  {
    if |s| == 0 then ""
    else (if s[0] == c then "" else [s[0]]) + RemoveChar(s[1..], c)
  }

  /** `path.replace(/\]/g, "").split("[")`. */
  function PathPieces(path: string): seq<string> {
    Split(RemoveChar(path, ']'), '[')
  }

  /** One `result = result[piece]` step of `objGet`. */
  function Step(v: PathValue, piece: string): PathValue {
    match v
    case Crash => Crash
    case Undef => Crash
    case Found(j) =>
      match j
      case JNull => Crash
      case JObj(m) => (match Lookup(m, piece) case Some(x) => Found(x) case None => Undef)
      case JArr(items) =>
        if IsDigits(piece) && piece == NatToString(ParseDigits(piece)) && ParseDigits(piece) < |items|
        then Found(items[ParseDigits(piece)])
        else Undef
      case _ => Undef
  }

  function Walk(v: PathValue, pieces: seq<string>): PathValue
    decreases |pieces|
  {
    if |pieces| == 0 then v else Walk(Step(v, pieces[0]), pieces[1..])
  }

  /** `objGet(obj, path)`: reads `a[b][c]`-style paths. */
  function ObjGet(doc: Json, path: string): PathValue {
    Walk(Found(doc), PathPieces(path))
  }

  /** `getVm(path)`: the whole document when `path` is empty (falsy), else `objGet`. */
  function GetVm(st: Store, path: string): PathValue {
    if path == "" then Found(Parsed(st)) else ObjGet(Parsed(st), path)
  }

  /** `obj[key] = value` on an object's member list. */
  function SetMember(m: seq<Member>, key: string, value: Json): (r: seq<Member>)
    ensures Lookup(r, key) == Some(value)
    ensures forall k :: k != key ==> Lookup(r, k) == Lookup(m, k)
  {
    if |m| == 0 then [Member(key, value)]
    else if m[0].key == key then [Member(key, value)] + m[1..]
    else
      var r := [m[0]] + SetMember(m[1..], key, value);
      assert r[1..] == SetMember(m[1..], key, value);
      r
  }

  /** `Object.assign(target, partial)`: members of `partial` are set in order. */
  function AssignMembers(m: seq<Member>, partial: seq<Member>): seq<Member>
    decreases |partial|
  {
    if |partial| == 0 then m
    else AssignMembers(SetMember(m, partial[0].key, partial[0].value), partial[1..])
  }

  /** The value `Object.assign` leaves for `key`: the last member of `partial` with it. */
  function LastLookup(partial: seq<Member>, key: string): Option<Json> {
    if |partial| == 0 then None
    else
      var rest := LastLookup(partial[1..], key);
      if rest.Some? then rest
      else if partial[0].key == key then Some(partial[0].value)
      else None
  }

  /** `assignVm(partial)`: a shallow merge of top-level keys; `Object.assign` throws a
      `TypeError` when the stored document is `null`. */
  function AssignVm(st: Store, partial: seq<Member>): Result<Store, string> {
    match Parsed(st)
    case JObj(m) => Ok(Store(Some(JObj(AssignMembers(m, partial)))))
    case _ => Err("TypeError")
  }

  /** After `assignVm`, a top-level key holds the last value assigned to it, and
      every key the partial document does not mention keeps its old value. */
  lemma {:induction false} AssignMembersLookup(m: seq<Member>, partial: seq<Member>, key: string)
    ensures Lookup(AssignMembers(m, partial), key)
         == (if LastLookup(partial, key).Some? then LastLookup(partial, key) else Lookup(m, key))
    decreases |partial|
  {
    if |partial| > 0 {
      AssignMembersLookup(SetMember(m, partial[0].key, partial[0].value), partial[1..], key);
    }
  }

  /** `getVm("a")` after `assignVm({a: v})` yields `v`, and other top-level paths are
      unaffected. */
  lemma AssignThenGet(st: Store, key: string, v: Json, other: string)
    requires Parsed(st).JObj?
    requires key != "" && '[' !in key && ']' !in key
    requires other != "" && other != key && '[' !in other && ']' !in other
    ensures AssignVm(st, [Member(key, v)]).Ok?
    ensures GetVm(AssignVm(st, [Member(key, v)]).value, key) == Found(v)
    ensures GetVm(AssignVm(st, [Member(key, v)]).value, other) == Step(Found(Parsed(st)), other)
  {
    var m := Parsed(st).members;
    var st' := AssignVm(st, [Member(key, v)]).value;
    AssignMembersLookup(m, [Member(key, v)], key);
    AssignMembersLookup(m, [Member(key, v)], other);
    PlainPath(Parsed(st'), key);
    PlainPath(Parsed(st'), other);
    PlainPath(Parsed(st), other);
  }

  lemma {:induction false} RemoveCharNoop(s: string, c: char)
    requires c !in s
    ensures RemoveChar(s, c) == s
  {
    if |s| > 0 {
      RemoveCharNoop(s[1..], c);
      assert [s[0]] + s[1..] == s;
    }
  }

  lemma {:induction false} RemoveCharAppend(a: string, b: string, c: char)
    ensures RemoveChar(a + b, c) == RemoveChar(a, c) + RemoveChar(b, c)
  {
    if |a| == 0 {
      assert a + b == b;
    } else {
      assert (a + b)[1..] == a[1..] + b;
      RemoveCharAppend(a[1..], b, c);
    }
  }

  /** A path without brackets reads one top-level property. */
  lemma PlainPath(doc: Json, key: string)
    requires '[' !in key && ']' !in key
    ensures ObjGet(doc, key) == Step(Found(doc), key)
  {
    RemoveCharNoop(key, ']');
    SplitNoSeparator(key, '[');
    assert PathPieces(key) == [key];
    assert Walk(Found(doc), [key]) == Walk(Step(Found(doc), key), []);
  }

  /** `objGet(doc, "a[b]")` reads property `b` of property `a`, as `getVm("temp[ticket]")`
      and `getVm("fieldSettings[" + refName + "]")` rely on. */
  lemma BracketPath(doc: Json, a: string, b: string)
    requires '[' !in a && ']' !in a && '[' !in b && ']' !in b
    ensures ObjGet(doc, a + "[" + b + "]") == Step(Step(Found(doc), a), b)
  {
    RemoveCharAppend(a + "[" + b, "]", ']');
    RemoveCharAppend(a + "[", b, ']');
    RemoveCharAppend(a, "[", ']');
    RemoveCharNoop(a, ']');
    RemoveCharNoop(b, ']');
    assert RemoveChar("[", ']') == "[";
    assert RemoveChar("]", ']') == "";
    assert RemoveChar(a + "[" + b + "]", ']') == a + ['['] + b;
    SplitPiece(a, b, '[');
    SplitNoSeparator(b, '[');
    assert PathPieces(a + "[" + b + "]") == [a, b];
    assert Walk(Found(doc), [a, b]) == Walk(Step(Found(doc), a), [b]);
    assert Walk(Step(Found(doc), a), [b]) == Walk(Step(Step(Found(doc), a), b), []);
  }
}
