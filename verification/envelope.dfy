/** The cross-frame message envelope. The sidebar and the modal frames talk through
    one `localStorage` slot (`VSTS_ZENDESK_TEMP_ARG`): the caller stores its
    arguments and fires an event, the callee reads and clears the slot, runs the named
    `action_*` handler and stores the reply (or `{err: message}`), and the caller reads
    the reply back. One exchange is modelled at a time, as a sequential state machine. */
module Envelope {
  import opened Wrappers
  import opened JsonValues

  /** The text in the slot: nothing, a JSON document, or text that is not JSON.
      `JSON.stringify(undefined)` yields `undefined`, which `setItem` stores as the
      text "undefined"; that is the only way the program puts unparsable text there. */
  datatype Slot = Empty | Stored(doc: Json) | Unparsable

  /** `setMessageArg(data)`. */
  function SetMessageArg(data: Value): (s: Slot)
    ensures s.Stored? <==> data.Defined?
  {
    match data
    case Undefined => Unparsable
    case Defined(j) => Stored(j)
  }

  /** A read of the slot: the parsed argument, or the `SyntaxError` `JSON.parse`
      throws; the slot is cleared either way. */
  datatype Read = Read(arg: Result<Json, string>, after: Slot)

  const SyntaxError: string := "SyntaxError: Unexpected token u in JSON"

  /** The sidebar's `getMessageArg`: clears the slot, then parses without a guard. */
  function SidebarGetMessageArg(s: Slot): (r: Read)
    ensures r.after == Empty
    ensures r.arg.Err? <==> s.Unparsable?
    ensures s.Stored? ==> r.arg == Ok(s.doc)
  {
    match s
    case Empty => Read(Ok(JNull), Empty)
    case Stored(j) => Read(Ok(j), Empty)
    case Unparsable => Read(Err(SyntaxError), Empty)
  }

  /** The modal's `getMessageArg`: clears the slot; a parse failure becomes `null`. */
  function ModalGetMessageArg(s: Slot): (r: Read)
    ensures r.after == Empty
    ensures r.arg.Ok?
    ensures r.arg.value != JNull ==> s == Stored(r.arg.value)
  {
    match s
    case Stored(j) => Read(Ok(j), Empty)
    case _ => Read(Ok(JNull), Empty)
  }

  /** Storing a value and reading it back yields the value and leaves the slot empty;
      storing `undefined` reads back as `null` on the modal side and as a thrown
      `SyntaxError` on the sidebar side. */
  lemma MessageRoundTrip(v: Value)
    ensures v.Defined? ==> ModalGetMessageArg(SetMessageArg(v)) == Read(Ok(v.json), Empty)
    ensures v.Defined? ==> SidebarGetMessageArg(SetMessageArg(v)) == Read(Ok(v.json), Empty)
    ensures v.Undefined? ==> ModalGetMessageArg(SetMessageArg(v)) == Read(Ok(JNull), Empty)
    ensures v.Undefined? ==> SidebarGetMessageArg(SetMessageArg(v)).arg.Err?
  {
  }

  /** The slot holds one message: a second store before the read replaces the first,
      and a second read finds `null`. */
  lemma SingleSlot(a: Value, b: Json)
    ensures ModalGetMessageArg(SetMessageArg(Defined(b))).arg == Ok(b)
    ensures ModalGetMessageArg(ModalGetMessageArg(SetMessageArg(a)).after).arg == Ok(JNull)
  {
  }

  /** The decoded form of a request: `action_<action>` called with `rest`. */
  datatype Call = Call(action: string, rest: seq<Json>)

  const TypeErrorMessage: string := "TypeError: not a function"

  /** `typeof args === "string" ? [args] : args`, then `"action_" + args[0]` and
      `args.slice(1)`. Any other shape of `args` ends in a `TypeError`
      (`null[0]`, or a missing handler / `slice` on a number, boolean or object). */
  function DecodeCall(args: Json): (r: Result<Call, string>)
    ensures r.Ok? <==> args.JStr? || args.JArr?
    ensures args.JStr? ==> r == Ok(Call(args.s, []))
    ensures args.JArr? && |args.items| > 0 ==>
              r == Ok(Call(JsString(args.items[0]), args.items[1..]))
  {
    match args
    case JStr(s) => Ok(Call(s, []))
    case JArr(items) =>
      if |items| == 0 then Ok(Call("undefined", []))
      else Ok(Call(JsString(items[0]), items[1..]))
    case _ => Err(TypeErrorMessage)
  }

  /** A bare action name and the one-element list holding it decode to the same call. */
  lemma StringWrapsIntoList(name: string)
    ensures DecodeCall(JStr(name)) == DecodeCall(JArr([JStr(name)]))
  {
    assert JsString(JStr(name)) == name;
    assert [JStr(name)][1..] == [];
  }

  /** What an `action_*` handler did: returned a value, or threw something whose
      `message` property is given (`undefined` when a non-`Error` was thrown). */
  datatype Outcome = Returned(result: Value) | Threw(message: Value)

  /** `{ err: e.message }`; `JSON.stringify` drops an `undefined` member. */
  function ErrorEnvelope(message: Value): (r: Json)
    ensures r.JObj?
    ensures message.Defined? ==> Lookup(r.members, "err") == Some(message.json)
    ensures message.Undefined? ==> Lookup(r.members, "err") == None
  {
    match message
    case Undefined => JObj([])
    case Defined(m) => JObj([Member("err", m)])
  }

  /** The state after the callee handled a request: whether the reply event fired,
      and the slot. */
  datatype Served = Served(responded: bool, slot: Slot)

  /** The sidebar's `execute.query` handler: the read sits outside the `try`, so an
      unparsable slot throws and no reply is sent; inside the `try` every failure,
      a missing handler included, is caught and stored as `{err: message}`.
      `handler(name, arg)` runs `action_<name>` on the single argument `arg`
      (`.call(this, args.slice(1))` passes the remaining list as one value), and is
      `None` when there is no such handler. */
  function SidebarServe(s: Slot, handler: (string, Json) -> Option<Outcome>): (r: Served)
    ensures r.responded <==> !s.Unparsable?
    ensures !r.responded ==> r.slot == Empty
  {
    var read := SidebarGetMessageArg(s);
    match read.arg
    case Err(_) => Served(false, read.after)
    case Ok(args) => Served(true, SetMessageArg(SidebarReply(args, handler)))
  }

  /** The value the sidebar stores as its reply to the request `args`. */
  function SidebarReply(args: Json, handler: (string, Json) -> Option<Outcome>): (v: Value)
    ensures DecodeCall(args).Err? ==> v == Defined(ErrorEnvelope(Defined(JStr(TypeErrorMessage))))
  {
    match DecodeCall(args)
    case Err(m) => Defined(ErrorEnvelope(Defined(JStr(m))))
    case Ok(call) =>
      match handler(call.action, JArr(call.rest))
      case None => Defined(ErrorEnvelope(Defined(JStr(TypeErrorMessage))))
      case Some(Returned(v)) => v
      case Some(Threw(m)) => Defined(ErrorEnvelope(m))
  }

  /** How the modal's pending call settles (`onSidebarResponse`). */
  datatype Settled = Resolved(value: Json) | Rejected(message: Json)

  /** `response && response.err`: only an object with a truthy `err` member rejects. */
  function OnSidebarResponse(response: Json): (r: Settled)
    ensures r.Rejected? <==>
              response.JObj? && Lookup(response.members, "err").Some?
              && Truthy(Lookup(response.members, "err").value)
    ensures r.Rejected? ==> Some(r.message) == Lookup(response.members, "err")
    ensures r.Resolved? ==> r.value == response
  {
    if response.JObj? then
      match Lookup(response.members, "err")
      case Some(e) => if Truthy(e) then Rejected(e) else Resolved(response)
      case None => Resolved(response)
    else Resolved(response)
  }

  /** The modal's `execute.query` handler (serving a sidebar request): there is no
      `try`, so a request that does not decode (`null[0]`, or `slice` on a number,
      boolean or object), a missing handler or a throwing one leaves the sidebar
      without a reply; `handler(name, arg)` receives `args.slice(1)` as one list. */
  function ModalServe(s: Slot, handler: (string, Json) -> Option<Outcome>): (r: Served)
    ensures var call := DecodeCall(ModalGetMessageArg(s).arg.value);
            r.responded <==> call.Ok? && handler(call.value.action, JArr(call.value.rest)).Some?
                             && handler(call.value.action, JArr(call.value.rest)).value.Returned?
    ensures var call := DecodeCall(ModalGetMessageArg(s).arg.value);
            r.responded ==> r.slot == SetMessageArg(handler(call.value.action, JArr(call.value.rest)).value.result)
    ensures !r.responded ==> r.slot == Empty
  {
    var read := ModalGetMessageArg(s);
    match DecodeCall(read.arg.value)
    case Err(_) => Served(false, read.after)
    case Ok(call) =>
      match handler(call.action, JArr(call.rest))
      case Some(Returned(v)) => Served(true, SetMessageArg(v))
      case _ => Served(false, read.after)
  }

  /** The two frames serve the same decoded request alike when the handler returns, and
      differently otherwise: the sidebar replies with `{err: ...}` where the modal stays
      silent. An empty or unparsable slot reads as `null` on the modal side, which is
      never served. */
  lemma ServeFramesCompared(j: Json, handler: (string, Json) -> Option<Outcome>)
    requires DecodeCall(j).Ok?
    ensures var call := DecodeCall(j).value;
            var o := handler(call.action, JArr(call.rest));
            (o.Some? && o.value.Returned? ==> SidebarServe(Stored(j), handler) == ModalServe(Stored(j), handler))
            && (!(o.Some? && o.value.Returned?) ==>
                  SidebarServe(Stored(j), handler).slot.Stored?
                  && SidebarServe(Stored(j), handler).slot.doc.JObj?
                  && !ModalServe(Stored(j), handler).responded)
    ensures !ModalServe(Empty, handler).responded && !ModalServe(Unparsable, handler).responded
  {
  }

  /** One complete modal-to-sidebar call: store the request, let the sidebar serve
      it, read the reply on the modal side and settle. `None` means the modal waits
      forever (no reply event). */
  function Exchange(request: Value, handler: (string, Json) -> Option<Outcome>): (r: Option<Settled>)
    ensures request.Undefined? ==> r.None?
  {
    var served := SidebarServe(SetMessageArg(request), handler);
    if served.responded then Some(OnSidebarResponse(ModalGetMessageArg(served.slot).arg.value))
    else None
  }

  /** A handler that returns `v` resolves the caller with `v`, unless `v` is itself an
      object with a truthy `err`; one that returns `undefined` (as `setDirty` does)
      resolves with `null`. */
  lemma ExchangeReturns(name: string, rest: seq<Json>, v: Value,
                        handler: (string, Json) -> Option<Outcome>)
    requires handler(name, JArr(rest)) == Some(Returned(v))
    ensures v.Defined? ==>
              Exchange(Defined(JArr([JStr(name)] + rest)), handler) == Some(OnSidebarResponse(v.json))
    ensures v.Undefined? ==>
              Exchange(Defined(JArr([JStr(name)] + rest)), handler) == Some(Resolved(JNull))
  {
    assert ([JStr(name)] + rest)[1..] == rest;
  }

  /** A handler that throws with a non-empty message string rejects the caller with
      that message; one that throws with an empty message resolves it with
      `{err: ""}`, because `""` is falsy. */
  lemma ExchangeThrows(name: string, rest: seq<Json>, m: string,
                       handler: (string, Json) -> Option<Outcome>)
    requires handler(name, JArr(rest)) == Some(Threw(Defined(JStr(m))))
    ensures m != "" ==>
              Exchange(Defined(JArr([JStr(name)] + rest)), handler) == Some(Rejected(JStr(m)))
    ensures m == "" ==>
              Exchange(Defined(JArr([JStr(name)] + rest)), handler)
              == Some(Resolved(JObj([Member("err", JStr(""))])))
  {
    assert ([JStr(name)] + rest)[1..] == rest;
  }

  /** A request naming no handler is rejected with the `TypeError` message. */
  lemma ExchangeMissingAction(name: string, rest: seq<Json>,
                              handler: (string, Json) -> Option<Outcome>)
    requires handler(name, JArr(rest)) == None
    ensures Exchange(Defined(JArr([JStr(name)] + rest)), handler)
         == Some(Rejected(JStr(TypeErrorMessage)))
  {
    assert ([JStr(name)] + rest)[1..] == rest;
  }
}
