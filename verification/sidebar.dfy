/** The sidebar's `action_*` handlers, which the modal frame calls through the message
    envelope, and the `isDirty` flag that makes closing the modal refresh the list of
    linked work items. */
module Sidebar {
  import opened Wrappers
  import opened JsonValues
  import opened LinkTags
  import opened Envelope

  /** What the sidebar keeps between calls: the ticket's tags (held by the host), the
      `isDirty` flag, and how many refreshes of the linked work items were started. */
  datatype State = State(tags: seq<string>, dirty: bool, refreshes: nat)

  /** The sidebar's outside world during one call: how `ajax(...)` settles for an
      argument list (a value, or for a failed request its `responseJSON.message`, `None`
      when the failure carries no `responseJSON`), and what `fetchLinkedVsoWorkItems`
      returns. */
  datatype World = World(ajax: Json -> Result<Value, Option<Value>>, linked: Value)

  /** The `message` of `new Error(m)`: the empty string for `undefined`, otherwise
      `String(m)`. */
  function ErrorText(m: Value): (r: string)
    ensures m.Defined? && m.json.JStr? ==> r == m.json.s
    ensures m.Undefined? ==> r == ""
    ensures m.Defined? && m.json.JNull? ==> r == "null"
  {
    match m
    case Undefined => ""
    case Defined(j) => JsString(j)
  }

  /** What `action_ajax`'s `catch` throws for a failure: `new Error(responseJSON.message)`,
      or the `TypeError` of reading `message` of a missing `responseJSON`. */
  function AjaxThrown(failure: Option<Value>): (o: Outcome)
    ensures o.Threw? && o.message.Defined? && o.message.json.JStr?
    ensures failure.Some? ==> o.message == Defined(JStr(ErrorText(failure.value)))
    ensures failure.None? ==> o.message == Defined(JStr(TypeErrorMessage))
  {
    match failure
    case Some(m) => Threw(Defined(JStr(ErrorText(m))))
    case None => Threw(Defined(JStr(TypeErrorMessage)))
  }

  const AjaxAction: string := "ajax"
  const LinkTicketAction: string := "linkTicket"
  const UnlinkTicketAction: string := "unlinkTicket"
  const GetLinkedIdsAction: string := "getLinkedWorkItemIds"
  const SetDirtyAction: string := "setDirty"
  const FetchLinkedAction: string := "fetchLinkedVsoWorkItems"

  /** The names `this["action_" + name]` finds on the sidebar. */
  const Actions: set<string> :=
    {AjaxAction, LinkTicketAction, UnlinkTicketAction, GetLinkedIdsAction, SetDirtyAction, FetchLinkedAction}

  /** An array of id strings, as `getLinkedWorkItemIds` resolves with. */
  function IdsJson(ids: seq<string>): (r: Json)
    ensures r.JArr? && |r.items| == |ids|
    ensures forall i :: 0 <= i < |ids| ==> r.items[i] == JStr(ids[i])
  {
    JArr(seq(|ids|, i requires 0 <= i < |ids| => JStr(ids[i])))
  }

  /** What a handler did and the sidebar's state afterwards; `None` when there is no
      handler of that name. */
  datatype Handled = Handled(outcome: Option<Outcome>, after: State)

  /** `this["action_" + name].call(this, arg)`, where `arg` is the request's remaining
      list. `linkTicket` and `unlinkTicket` build the tag `TAG_PREFIX + arg`, which
      renders the list the way `Array.prototype.join` does. The async handlers that
      return nothing resolve with `undefined`, and so does the synchronous `setDirty`. */
  function Act(st: State, w: World, name: string, arg: Json): (h: Handled)
    ensures h.outcome.None? <==> name !in Actions
    ensures h.after.refreshes == st.refreshes
    ensures h.after.dirty == (st.dirty || name == SetDirtyAction)
    ensures name != LinkTicketAction && name != UnlinkTicketAction ==> h.after.tags == st.tags
    ensures name == LinkTicketAction ==>
              h.after.tags == AddTag(st.tags, TagFor(JsString(arg)))
              && h.outcome == Some(Returned(Undefined))
    ensures name == UnlinkTicketAction ==>
              h.after.tags == RemoveTag(st.tags, TagFor(JsString(arg)))
              && h.outcome == Some(Returned(Undefined))
    ensures name == GetLinkedIdsAction ==>
              h.outcome == Some(Returned(Defined(IdsJson(LinkedIds(st.tags)))))
  {
    if name == AjaxAction then
      var settled := match w.ajax(arg) case Ok(v) => Returned(v) case Err(f) => AjaxThrown(f);
      Handled(Some(settled), st)
    else if name == LinkTicketAction then
      Handled(Some(Returned(Undefined)), st.(tags := AddTag(st.tags, TagFor(JsString(arg)))))
    else if name == UnlinkTicketAction then
      Handled(Some(Returned(Undefined)), st.(tags := RemoveTag(st.tags, TagFor(JsString(arg)))))
    else if name == GetLinkedIdsAction then
      Handled(Some(Returned(Defined(IdsJson(LinkedIds(st.tags))))), st)
    else if name == SetDirtyAction then
      Handled(Some(Returned(Undefined)), st.(dirty := true))
    else if name == FetchLinkedAction then
      Handled(Some(Returned(w.linked)), st)
    else
      Handled(None, st)
  }

  /** The handler table the envelope dispatches through, in the state `st`. */
  function Handler(st: State, w: World): (string, Json) -> Option<Outcome> {
    (name: string, arg: Json) => Act(st, w, name, arg).outcome
  }

  /** One modal-to-sidebar call (`execQueryOnSidebar`) and the sidebar's state after
      serving it. */
  datatype Exchanged = Exchanged(settled: Option<Settled>, after: State)

  function Call(st: State, w: World, request: Value): (r: Exchanged)
    ensures r.after.refreshes == st.refreshes
    ensures request.Undefined? ==> r.settled.None? && r.after == st
  {
    var after := match request
      case Undefined => st
      case Defined(args) =>
        match DecodeCall(args)
        case Ok(c) => Act(st, w, c.action, JArr(c.rest)).after
        case Err(_) => st;
    Exchanged(Exchange(request, Handler(st, w)), after)
  }

  /** The request `[name] + rest`, as the modal builds it. */
  function Request(name: string, rest: seq<Json>): Value {
    Defined(JArr([JStr(name)] + rest))
  }

  /** `onModalClosed`: when a call marked the sidebar dirty, the linked work items are
      refreshed once and the flag cleared; otherwise nothing happens. */
  function OnModalClosed(st: State): (r: State)
    ensures !r.dirty && r.tags == st.tags
    ensures r.refreshes == st.refreshes + 1 <==> st.dirty
    ensures !st.dirty ==> r == st
  {
    if st.dirty then st.(dirty := false, refreshes := st.refreshes + 1) else st
  }

  /** Closing the modal twice refreshes no more than closing it once. */
  lemma CloseIdempotent(st: State)
    ensures OnModalClosed(OnModalClosed(st)) == OnModalClosed(st)
  {
  }

  /** A one-element list renders as its only element. */
  lemma SingleIdText(id: string)
    ensures JsString(JArr([JStr(id)])) == id
  {
    assert JsString(JStr(id)) == id;
    assert JoinElements([JStr(id)]) == id;
  }

  /** The modal's `linkTicket(workItemId)` resolves with `null` and leaves the ticket
      carrying the tag for the id; a string id is then reported as linked, after the
      ids reported before. */
  lemma ModalLinkTicket(st: State, w: World, id: string)
    requires id != ""
    ensures Call(st, w, Request(LinkTicketAction, [JStr(id)])).settled == Some(Resolved(JNull))
    ensures Call(st, w, Request(LinkTicketAction, [JStr(id)])).after
         == st.(tags := AddTag(st.tags, TagFor(id)))
    ensures id in LinkedIds(Call(st, w, Request(LinkTicketAction, [JStr(id)])).after.tags)
    ensures forall x :: x in LinkedIds(st.tags) ==>
              x in LinkedIds(Call(st, w, Request(LinkTicketAction, [JStr(id)])).after.tags)
  {
    SingleIdText(id);
    ExchangeReturns(LinkTicketAction, [JStr(id)], Undefined, Handler(st, w));
    assert ([JStr(LinkTicketAction)] + [JStr(id)])[1..] == [JStr(id)];
    LinkEffect(st.tags, id);
    var after := AddTag(st.tags, TagFor(id));
    forall x | x in LinkedIds(st.tags)
      ensures x in LinkedIds(after)
    {
      LinkedIdsMembership(st.tags, x);
      LinkedIdsMembership(after, x);
    }
  }

  /** The modal's `unlinkTicket(workItemId)` resolves with `null`; the id is no longer
      reported as linked and every other id is reported as before. */
  lemma ModalUnlinkTicket(st: State, w: World, id: string, other: string)
    requires other != id
    ensures Call(st, w, Request(UnlinkTicketAction, [JStr(id)])).settled == Some(Resolved(JNull))
    ensures id !in LinkedIds(Call(st, w, Request(UnlinkTicketAction, [JStr(id)])).after.tags)
    ensures other in LinkedIds(Call(st, w, Request(UnlinkTicketAction, [JStr(id)])).after.tags)
        <==> other in LinkedIds(st.tags)
  {
    SingleIdText(id);
    ExchangeReturns(UnlinkTicketAction, [JStr(id)], Undefined, Handler(st, w));
    assert ([JStr(UnlinkTicketAction)] + [JStr(id)])[1..] == [JStr(id)];
    UnlinkEffect(st.tags, id, other);
  }

  /** The modal's `getLinkedWorkItemIds` resolves with exactly the ids the ticket's tags
      encode, and changes nothing. */
  lemma ModalGetLinkedIds(st: State, w: World)
    ensures Call(st, w, Defined(JStr(GetLinkedIdsAction))).settled
         == Some(Resolved(IdsJson(LinkedIds(st.tags))))
    ensures Call(st, w, Defined(JStr(GetLinkedIdsAction))).after == st
  {
    StringWrapsIntoList(GetLinkedIdsAction);
    ExchangeReturns(GetLinkedIdsAction, [], Defined(IdsJson(LinkedIds(st.tags))), Handler(st, w));
    assert [JStr(GetLinkedIdsAction)] + [] == [JStr(GetLinkedIdsAction)];
  }

  /** A work item linked through the modal is found by a later `isAlreadyLinkedToWorkItem`
      check, which reads the ids back through `getLinkedWorkItemIds`. */
  lemma LinkThenListed(st: State, w: World, id: string)
    requires id != ""
    ensures var linked := Call(st, w, Request(LinkTicketAction, [JStr(id)])).after;
            var listed := Call(linked, w, Defined(JStr(GetLinkedIdsAction))).settled;
            listed.Some? && listed.value.Resolved? && listed.value.value.JArr?
            && JStr(id) in listed.value.value.items
  {
    ModalLinkTicket(st, w, id);
    var linked := Call(st, w, Request(LinkTicketAction, [JStr(id)])).after;
    ModalGetLinkedIds(linked, w);
    var ids := LinkedIds(linked.tags);
    var k :| 0 <= k < |ids| && ids[k] == id;
    assert IdsJson(ids).items[k] == JStr(id);
  }

  /** The modal's `setDirty` resolves with `null` and marks the sidebar dirty, so the
      next close of the modal refreshes the linked work items exactly once and a second
      close does nothing. */
  lemma SetDirtyThenClose(st: State, w: World)
    ensures Call(st, w, Defined(JStr(SetDirtyAction))).settled == Some(Resolved(JNull))
    ensures OnModalClosed(Call(st, w, Defined(JStr(SetDirtyAction))).after).refreshes
         == st.refreshes + 1
    ensures OnModalClosed(OnModalClosed(Call(st, w, Defined(JStr(SetDirtyAction))).after)).refreshes
         == st.refreshes + 1
  {
    StringWrapsIntoList(SetDirtyAction);
    ExchangeReturns(SetDirtyAction, [], Undefined, Handler(st, w));
    assert [JStr(SetDirtyAction)] + [] == [JStr(SetDirtyAction)];
  }

  /** Without a `setDirty` call, closing the modal refreshes nothing: a call to any other
      action keeps a clean sidebar clean. */
  lemma CleanCloseNoRefresh(st: State, w: World, name: string, rest: seq<Json>)
    requires !st.dirty && name != SetDirtyAction
    ensures OnModalClosed(Call(st, w, Request(name, rest)).after).refreshes == st.refreshes
  {
    assert ([JStr(name)] + rest)[0] == JStr(name);
    assert ([JStr(name)] + rest)[1..] == rest;
  }

  /** A request for a name the sidebar has no handler for is rejected with the
      `TypeError` message and changes nothing. */
  lemma UnknownActionRejected(st: State, w: World, name: string, rest: seq<Json>)
    requires name !in Actions
    ensures Call(st, w, Request(name, rest)).settled == Some(Rejected(JStr(TypeErrorMessage)))
    ensures Call(st, w, Request(name, rest)).after == st
  {
    ExchangeMissingAction(name, rest, Handler(st, w));
    assert ([JStr(name)] + rest)[1..] == rest;
  }

  /** A failed `ajax` call settles the modal's call with the text of the thrown `Error`:
      rejected with it when it is non-empty (`null`, `0` and `false` give `"null"`, `"0"`
      and `"false"`), but resolved with `{err: ""}` when the message is empty or
      `undefined`; a failure without `responseJSON` rejects with the `TypeError` text.
      The sidebar's state is unchanged either way. */
  lemma AjaxFailureRejects(st: State, w: World, rest: seq<Json>, f: Option<Value>)
    requires w.ajax(JArr(rest)) == Err(f)
    ensures var text := if f.Some? then ErrorText(f.value) else TypeErrorMessage;
            Call(st, w, Request(AjaxAction, rest)).settled
            == if text != "" then Some(Rejected(JStr(text))) else Some(Resolved(JObj([Member("err", JStr(""))])))
    ensures f.None? ==> Call(st, w, Request(AjaxAction, rest)).settled == Some(Rejected(JStr(TypeErrorMessage)))
    ensures Call(st, w, Request(AjaxAction, rest)).after == st
  {
    var text := if f.Some? then ErrorText(f.value) else TypeErrorMessage;
    assert Handler(st, w)(AjaxAction, JArr(rest)) == Some(Threw(Defined(JStr(text))));
    ExchangeThrows(AjaxAction, rest, text, Handler(st, w));
    assert ([JStr(AjaxAction)] + rest)[1..] == rest;
  }
}
