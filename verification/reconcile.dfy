/** Reconciling a ticket's links with a work item's relations. Linking puts the
    ticket's marker hyperlink on the work item (unless one is there) and tags the
    ticket; unlinking removes every marker relation for the ticket with one JSON Patch
    and untags the ticket. */
module LinkReconciler {
  import opened Wrappers
  import opened Strings
  import opened LinkTags
  import opened WorkItems

  /** The attribute holding the marker: `name` in the current code, `Name` in the
      legacy code. */
  const ModalNameKey: string := "name"
  const LegacyNameKey: string := "Name"

  /** The relation is the ticket's link marker (the link short-circuit test). */
  predicate IsTicketLink(r: Relation, key: string, ticketId: nat) {
    IsHyperlinkRel(r.rel) && key in r.attributes && r.attributes[key] == LinkMarker(ticketId)
  }

  /** The relation is the ticket's link marker or attachment marker (the unlink test). */
  predicate IsTicketMarker(r: Relation, key: string, ticketId: nat) {
    IsHyperlinkRel(r.rel) && key in r.attributes
    && (r.attributes[key] == LinkMarker(ticketId) || r.attributes[key] == AttachmentMarker(ticketId))
  }

  /** The indices of the marker relations, ascending. */
  function MatchIndices(rels: seq<Relation>, key: string, t: nat): (m: seq<nat>)
    ensures forall k :: 0 <= k < |m| ==> m[k] < |rels| && IsTicketMarker(rels[m[k]], key, t)
    ensures forall i :: 0 <= i < |rels| && IsTicketMarker(rels[i], key, t) ==> i in m
    ensures forall k, l :: 0 <= k < l < |m| ==> m[k] < m[l]
  {
    if |rels| == 0 then []
    else
      var init := rels[..|rels| - 1];
      var m := MatchIndices(init, key, t);
      assert forall i :: 0 <= i < |init| ==> init[i] == rels[i];
      if IsTicketMarker(rels[|rels| - 1], key, t) then m + [|rels| - 1] else m
  }

  /** The relations unlinking keeps: the non-marker ones, in order. */
  function Kept(rels: seq<Relation>, key: string, t: nat): (r: seq<Relation>)
    ensures forall x :: x in r <==> x in rels && !IsTicketMarker(x, key, t)
  {
    if |rels| == 0 then []
    else
      var init := rels[..|rels| - 1];
      assert rels == init + [rels[|rels| - 1]];
      Kept(init, key, t) + (if IsTicketMarker(rels[|rels| - 1], key, t) then [] else [rels[|rels| - 1]])
  }

  /** The remove positions of the unlink patch: walking the relations in order, a
      marker at index `idx` is recorded as `idx - (positions recorded so far)`, the
      index it has once the earlier removals have been applied. */
  function UnlinkPositions(rels: seq<Relation>, key: string, t: nat): (pos: seq<nat>)
    ensures |pos| <= |rels|
    ensures forall k :: 0 <= k < |pos| ==> pos[k] <= |rels| - |pos|
    ensures forall k, l :: 0 <= k < l < |pos| ==> pos[k] <= pos[l]
  {
    if |rels| == 0 then []
    else
      var p := UnlinkPositions(rels[..|rels| - 1], key, t);
      if IsTicketMarker(rels[|rels| - 1], key, t) then p + [|rels| - 1 - |p|] else p
  }

  /** Position `k` is the `k`-th marker index shifted down by `k`. */
  lemma {:induction false} PositionsShift(rels: seq<Relation>, key: string, t: nat)
    ensures |UnlinkPositions(rels, key, t)| == |MatchIndices(rels, key, t)|
    ensures forall k :: 0 <= k < |UnlinkPositions(rels, key, t)| ==>
              UnlinkPositions(rels, key, t)[k] + k == MatchIndices(rels, key, t)[k]
  {
    if |rels| > 0 {
      PositionsShift(rels[..|rels| - 1], key, t);
    }
  }

  lemma {:induction false} KeptCount(rels: seq<Relation>, key: string, t: nat)
    ensures |Kept(rels, key, t)| + |UnlinkPositions(rels, key, t)| == |rels|
  {
    if |rels| > 0 {
      KeptCount(rels[..|rels| - 1], key, t);
    }
  }

  /** The remove operations applied in order to a relation list; `None` when an index
      is out of range. */
  function RemoveAll(s: seq<Relation>, ps: seq<nat>): Option<seq<Relation>>
    decreases |ps|
  {
    if |ps| == 0 then Some(s)
    else if ps[0] < |s| then RemoveAll(RemoveAt(s, ps[0]), ps[1..])
    else None
  }

  lemma {:induction false} RemoveAllSnoc(s: seq<Relation>, ps: seq<nat>, q: nat)
    ensures RemoveAll(s, ps + [q])
         == (match RemoveAll(s, ps)
             case None => None
             case Some(x) => if q < |x| then Some(RemoveAt(x, q)) else None)
    decreases |ps|
  {
    if |ps| == 0 {
      assert ps + [q] == [q];
      if q < |s| {
        assert RemoveAll(RemoveAt(s, q), []) == Some(RemoveAt(s, q));
      }
    } else {
      assert (ps + [q])[1..] == ps[1..] + [q];
      if ps[0] < |s| {
        RemoveAllSnoc(RemoveAt(s, ps[0]), ps[1..], q);
      }
    }
  }

  lemma {:induction false} RemoveAllTail(a: seq<Relation>, b: seq<Relation>, ps: seq<nat>)
    requires RemoveAll(a, ps).Some?
    ensures RemoveAll(a + b, ps) == Some(RemoveAll(a, ps).value + b)
    decreases |ps|
  {
    if |ps| > 0 {
      assert RemoveAt(a + b, ps[0]) == RemoveAt(a, ps[0]) + b;
      RemoveAllTail(RemoveAt(a, ps[0]), b, ps[1..]);
    }
  }

  /** Applying the removals in order deletes exactly the marker relations and keeps
      the others in their order. */
  lemma {:induction false} RemovalsDeleteExactlyMarkers(rels: seq<Relation>, key: string, t: nat)
    ensures RemoveAll(rels, UnlinkPositions(rels, key, t)) == Some(Kept(rels, key, t))
  {
    if |rels| > 0 {
      var init := rels[..|rels| - 1];
      var last := rels[|rels| - 1];
      assert rels == init + [last];
      RemovalsDeleteExactlyMarkers(init, key, t);
      RemovalsSnoc(init, last, key, t);
    }
  }

  /** The inductive step: the property carries over from `init` to `init + [last]`. */
  lemma RemovalsSnoc(init: seq<Relation>, last: Relation, key: string, t: nat)
    requires RemoveAll(init, UnlinkPositions(init, key, t)) == Some(Kept(init, key, t))
    ensures RemoveAll(init + [last], UnlinkPositions(init + [last], key, t)) == Some(Kept(init + [last], key, t))
  {
    var p := UnlinkPositions(init, key, t);
    var k := Kept(init, key, t);
    KeptCount(init, key, t);
    RemovalStep(init, last, p, k);
    PositionsSnoc(init, last, key, t);
    KeptSnoc(init, last, key, t);
    if IsTicketMarker(last, key, t) {
      assert UnlinkPositions(init + [last], key, t) == p + [|init| - |p|];
      assert Kept(init + [last], key, t) == k;
    } else {
      assert UnlinkPositions(init + [last], key, t) == p;
      assert Kept(init + [last], key, t) == k + [last];
    }
  }

  lemma KeptSnoc(rels: seq<Relation>, x: Relation, key: string, t: nat)
    ensures Kept(rels + [x], key, t)
         == Kept(rels, key, t) + (if IsTicketMarker(x, key, t) then [] else [x])
  {
    var s := rels + [x];
    assert s[..|s| - 1] == rels;
    assert s[|s| - 1] == x;
  }

  /** One more relation after `init`: the same removals keep it; one more removal,
      at the position just past the kept ones, deletes it. */
  lemma RemovalStep(init: seq<Relation>, last: Relation, p: seq<nat>, k: seq<Relation>)
    requires RemoveAll(init, p) == Some(k)
    requires |k| + |p| == |init|
    ensures RemoveAll(init + [last], p) == Some(k + [last])
    ensures RemoveAll(init + [last], p + [|init| - |p|]) == Some(k)
  {
    RemoveAllTail(init, [last], p);
    var q := |init| - |p|;
    RemoveAllSnoc(init + [last], p, q);
    assert |k + [last]| == q + 1;
    assert RemoveAt(k + [last], q) == k;
  }

  function RemovePatches(pos: seq<nat>): (ops: seq<Op>)
    ensures |ops| == |pos|
    ensures forall i :: 0 <= i < |pos| ==> ops[i] == RemovePatch(pos[i])
  {
    seq(|pos|, i requires 0 <= i < |pos| => RemovePatch(pos[i]))
  }

  lemma {:induction false} ApplyRemovePatches(w: WorkItem, pos: seq<nat>)
    ensures ApplyPatch(w, RemovePatches(pos))
         == (match RemoveAll(w.relations, pos)
             case None => Err(NoSuchTarget)
             case Some(r) => Ok(w.(relations := r)))
    decreases |pos|
  {
    if |pos| > 0 {
      assert RemovePatches(pos)[1..] == RemovePatches(pos[1..]);
      if pos[0] < |w.relations| {
        ApplyRemovePatches(w.(relations := RemoveAt(w.relations, pos[0])), pos[1..]);
      }
    }
  }

  /** The unlink patch: `None` when the work item carries no marker for the ticket
      (nothing is sent), otherwise a `test` of the fetched revision followed by the
      removals. */
  function UnlinkPatch(w: WorkItem, t: nat): (r: Option<seq<Op>>)
    ensures r.None? <==> forall i :: 0 <= i < |w.relations| ==> !IsTicketMarker(w.relations[i], ModalNameKey, t)
    ensures r.Some? ==> |r.value| == |MatchIndices(w.relations, ModalNameKey, t)| + 1
                        && r.value[0] == Op(TestOp, Rev, RevValue(w.rev))
                        && forall i :: 1 <= i < |r.value| ==> r.value[i].op == RemoveOp
  {
    var pos := UnlinkPositions(w.relations, ModalNameKey, t);
    PositionsShift(w.relations, ModalNameKey, t);
    var m := MatchIndices(w.relations, ModalNameKey, t);
    if |pos| == 0 then
      assert |m| == 0;
      None
    else
      assert IsTicketMarker(w.relations[m[0]], ModalNameKey, t);
      Some([Op(TestOp, Rev, RevValue(w.rev))] + RemovePatches(pos))
  }

  /** Against the revision it was computed from, the unlink patch succeeds and leaves
      exactly the non-marker relations, in order. */
  lemma UnlinkPatchApplies(w: WorkItem, t: nat)
    requires UnlinkPatch(w, t).Some?
    ensures ApplyPatch(w, UnlinkPatch(w, t).value) == Ok(w.(relations := Kept(w.relations, ModalNameKey, t)))
  {
    var pos := UnlinkPositions(w.relations, ModalNameKey, t);
    var test := Op(TestOp, Rev, RevValue(w.rev));
    ApplyPatchAppend(w, [test], RemovePatches(pos));
    assert ApplyPatch(w, [test]) == Ok(w);
    RemovalsDeleteExactlyMarkers(w.relations, ModalNameKey, t);
    ApplyRemovePatches(w, pos);
  }

  /** If the work item changed revision after it was fetched, the leading `test`
      fails and nothing is removed. */
  lemma UnlinkPatchStale(fetched: WorkItem, current: WorkItem, t: nat)
    requires UnlinkPatch(fetched, t).Some?
    requires current.rev != fetched.rev
    ensures ApplyPatch(current, UnlinkPatch(fetched, t).value) == Err(TestFailed)
  {
  }

  /** Extending the relations by one: a marker adds the position it will have after
      the earlier removals. */
  lemma PositionsSnoc(rels: seq<Relation>, x: Relation, key: string, t: nat)
    ensures var p := UnlinkPositions(rels, key, t);
            UnlinkPositions(rels + [x], key, t)
            == (if IsTicketMarker(x, key, t) then p + [|rels| - |p|] else p)
  {
    if IsTicketMarker(x, key, t) {
      PositionsSnocMarker(rels, x, key, t);
    } else {
      PositionsSnocOther(rels, x, key, t);
    }
  }

  /** A marker after `rels` adds the position just past the kept relations. */
  lemma PositionsSnocMarker(rels: seq<Relation>, x: Relation, key: string, t: nat)
    requires IsTicketMarker(x, key, t)
    ensures UnlinkPositions(rels + [x], key, t)
         == UnlinkPositions(rels, key, t) + [|rels| - |UnlinkPositions(rels, key, t)|]
  {
    var s := rels + [x];
    assert s[..|s| - 1] == rels;
  }

  /** Any other relation after `rels` adds no position. */
  lemma PositionsSnocOther(rels: seq<Relation>, x: Relation, key: string, t: nat)
    requires !IsTicketMarker(x, key, t)
    ensures UnlinkPositions(rels + [x], key, t) == UnlinkPositions(rels, key, t)
  {
    var s := rels + [x];
    assert s[..|s| - 1] == rels;
  }

  lemma PositionsExampleStart(o: Relation, m: Relation, k: string, t: nat)
    requires !IsTicketMarker(o, k, t) && IsTicketMarker(m, k, t)
    ensures UnlinkPositions([o, o, m], k, t) == [2]
  {
    var s0: seq<Relation> := [];
    var s1 := s0 + [o];
    var s2 := s1 + [o];
    var s3 := s2 + [m];
    PositionsSnocOther(s0, o, k, t);
    assert UnlinkPositions(s1, k, t) == [];
    PositionsSnocOther(s1, o, k, t);
    assert UnlinkPositions(s2, k, t) == [];
    PositionsSnocMarker(s2, m, k, t);
    assert UnlinkPositions(s3, k, t) == [2];
    assert s3 == [o, o, m];
  }

  lemma PositionsExampleMiddle(o: Relation, m: Relation, k: string, t: nat)
    requires !IsTicketMarker(o, k, t) && IsTicketMarker(m, k, t)
    ensures UnlinkPositions([o, o, m, o, o, m], k, t) == [2, 4]
  {
    var s3 := [o, o, m];
    var s4 := s3 + [o];
    var s5 := s4 + [o];
    var s6 := s5 + [m];
    PositionsExampleStart(o, m, k, t);
    PositionsSnocOther(s3, o, k, t);
    assert UnlinkPositions(s4, k, t) == [2];
    PositionsSnocOther(s4, o, k, t);
    assert UnlinkPositions(s5, k, t) == [2];
    PositionsSnocMarker(s5, m, k, t);
    assert UnlinkPositions(s6, k, t) == [2, 4];
    assert s6 == [o, o, m, o, o, m];
  }

  lemma PositionsExampleEnd(o: Relation, m: Relation, k: string, t: nat)
    requires !IsTicketMarker(o, k, t) && IsTicketMarker(m, k, t)
    ensures UnlinkPositions([o, o, m, o, o, m, o, m], k, t) == [2, 4, 5]
  {
    var s6 := [o, o, m, o, o, m];
    var s7 := s6 + [o];
    var s8 := s7 + [m];
    PositionsExampleMiddle(o, m, k, t);
    PositionsSnocOther(s6, o, k, t);
    assert UnlinkPositions(s7, k, t) == [2, 4];
    PositionsSnocMarker(s7, m, k, t);
    assert UnlinkPositions(s8, k, t) == [2, 4, 5];
    assert s8 == [o, o, m, o, o, m, o, m];
  }

  /** Markers at indices 2, 5 and 7 become the positions 2, 4, 5. */
  lemma UnlinkPositionsExample(t: nat)
    ensures UnlinkPositions([Other, Other, Marker(t), Other, Other, Marker(t), Other, Marker(t)],
                            ModalNameKey, t) == [2, 4, 5]
  {
    HyperlinkRelLower();
    PositionsExampleEnd(Other, Marker(t), ModalNameKey, t);
  }

  /** The sample relations: an unrelated one and the ticket's marker hyperlink. */
  const Other: Relation := Relation("ArtifactLink", "x", map[])

  function Marker(t: nat): (r: Relation)
    ensures IsTicketMarker(r, ModalNameKey, t)
  {
    Hyperlink("u", LinkMarker(t), None)
  }

  /** The positions 2, 4 and 5 are sent as `/relations/2`, `/relations/4`,
      `/relations/5`. */
  lemma RemovePathsExample()
    ensures RenderPath(RemovePatch(2).path) == "/relations/2"
    ensures RenderPath(RemovePatch(4).path) == "/relations/4"
    ensures RenderPath(RemovePatch(5).path) == "/relations/5"
  {
    assert NatToString(2) == "2" && NatToString(4) == "4" && NatToString(5) == "5";
  }

  /** The legacy unlink selection (`_.filter` with attribute `Name`): the marker
      relations, in order. */
  function LegacyLinksToRemove(rels: seq<Relation>, t: nat): (r: seq<Relation>)
    ensures forall x :: x in r <==> x in rels && IsTicketMarker(x, LegacyNameKey, t)
  {
    if |rels| == 0 then []
    else
      var init := rels[..|rels| - 1];
      assert rels == init + [rels[|rels| - 1]];
      LegacyLinksToRemove(init, t) + (if IsTicketMarker(rels[|rels| - 1], LegacyNameKey, t) then [rels[|rels| - 1]] else [])
  }

  /** Both versions select the same number of relations for the same attribute key, so
      under that one key both skip the remote update in exactly the same cases (the two
      apps use different keys, see `MarkerKeyMismatch`). */
  lemma {:induction false} LegacySelectionAgrees(rels: seq<Relation>, t: nat)
    ensures |LegacyLinksToRemove(rels, t)| == |UnlinkPositions(rels, LegacyNameKey, t)|
  {
    if |rels| > 0 {
      LegacySelectionAgrees(rels[..|rels| - 1], t);
    }
  }

  /** The attribute keys differ: a marker written by the current code (`name`) is not
      recognised by the legacy predicate (`Name`). */
  lemma MarkerKeyMismatch(url: string, t: nat)
    ensures IsTicketLink(Hyperlink(url, LinkMarker(t), None), ModalNameKey, t)
    ensures !IsTicketMarker(Hyperlink(url, LinkMarker(t), None), LegacyNameKey, t)
  {
  }

  datatype LinkRejection = NotANumber | AlreadyLinked

  /** The id a digit string denotes, in canonical decimal. */
  function CanonicalId(input: string): (id: string)
    requires IsDigits(input)
    ensures IsDigits(id)
    ensures ParseDigits(id) == ParseDigits(input)
  {
    ParseNatToString(ParseDigits(input));
    NatToString(ParseDigits(input))
  }

  /** Link validation, run before any request: the id must match `^[0-9]+$`, then it
      must not be linked already. */
  function ValidateLink(input: string, linkedIds: seq<string>): (r: Option<LinkRejection>)
    ensures r == Some(NotANumber) <==> !IsDigits(input)
    ensures r == Some(AlreadyLinked) <==> IsDigits(input) && CanonicalId(input) in linkedIds
  {
    if !IsDigits(input) then Some(NotANumber)
    else if CanonicalId(input) in linkedIds then Some(AlreadyLinked)
    else None
  }

  /** The ticket's link marker on the work item, if any (the intended `_.find`). */
  function FindTicketLink(rels: seq<Relation>, key: string, t: nat): (r: Option<Relation>)
    ensures r.Some? <==> exists i :: 0 <= i < |rels| && IsTicketLink(rels[i], key, t)
    ensures r.Some? ==> r.value in rels && IsTicketLink(r.value, key, t)
  {
    if |rels| == 0 then None
    else if IsTicketLink(rels[0], key, t) then Some(rels[0])
    else
      assert forall i :: 0 < i < |rels| ==> rels[i] == rels[1..][i - 1];
      FindTicketLink(rels[1..], key, t)
  }

  /** `_.find` as written in the current link code: the predicate is an `async`
      function, whose Promise result is always truthy, so the first relation is
      returned whatever it is. */
  function FindTicketLinkAsWritten(rels: seq<Relation>): (r: Option<Relation>)
    ensures r.Some? <==> |rels| > 0
  {
    if |rels| > 0 then Some(rels[0]) else None
  }

  /** Whether the link step sends a patch. */
  datatype LinkPlan = TagOnly | SendPatch(ops: seq<Op>)

  /** With a marker already present only the tag is added; otherwise one `add` of
      the marker hyperlink to `/relations/-` is sent. */
  function PlanLink(rels: seq<Relation>, t: nat, ticketUrl: string): (p: LinkPlan)
    ensures p.TagOnly? <==> exists i :: 0 <= i < |rels| && IsTicketLink(rels[i], ModalNameKey, t)
    ensures p.SendPatch? ==> p.ops == [HyperlinkPatch(ticketUrl, LinkMarker(t), None)]
  {
    if FindTicketLink(rels, ModalNameKey, t).Some? then TagOnly
    else SendPatch([HyperlinkPatch(ticketUrl, LinkMarker(t), None)])
  }

  function PlanLinkAsWritten(rels: seq<Relation>, t: nat, ticketUrl: string): (p: LinkPlan)
    ensures p.TagOnly? <==> |rels| > 0
  {
    if FindTicketLinkAsWritten(rels).Some? then TagOnly
    else SendPatch([HyperlinkPatch(ticketUrl, LinkMarker(t), None)])
  }

  /** The discrepancy: a work item whose only relation is unrelated gets no marker
      as written, although it carries none. */
  lemma AsyncFindSkipsPatch(t: nat, url: string)
    ensures var o := Relation("ArtifactLink", "x", map[]);
            PlanLinkAsWritten([o], t, url) == TagOnly
            && PlanLink([o], t, url) == SendPatch([HyperlinkPatch(url, LinkMarker(t), None)])
  {
    var o := Relation("ArtifactLink", "x", map[]);
    assert !IsTicketLink(o, ModalNameKey, t);
    assert !IsTicketLink([o][0], ModalNameKey, t);
  }

  /** The legacy link step: the same decision, keyed on `Name`, sending the legacy
      operation object. */
  datatype LegacyLinkPlan = LegacyTagOnly | LegacySendPatch(operations: seq<JsonValues.Json>)

  function LegacyPlanLink(rels: seq<Relation>, t: nat, ticketUrl: string): (p: LegacyLinkPlan)
    ensures p.LegacyTagOnly? <==> exists i :: 0 <= i < |rels| && IsTicketLink(rels[i], LegacyNameKey, t)
    ensures p.LegacySendPatch? ==> p.operations == [LegacyHyperlinkOperation(ticketUrl, LinkMarker(t))]
  {
    if FindTicketLink(rels, LegacyNameKey, t).Some? then LegacyTagOnly
    else LegacySendPatch([LegacyHyperlinkOperation(ticketUrl, LinkMarker(t))])
  }

  /** Why a link that passed validation did not go through: the server refused the
      request (`errCannotUpdateWorkItem`), or the patch did not apply. */
  datatype LinkFailure = Refused(message: string) | NotApplied(error: PatchError)

  /** The result of the link workflow. */
  datatype LinkOutcome =
    | LinkRejected(reason: LinkRejection)
    | LinkFailed(failure: LinkFailure)
    | Linked(tags: seq<string>, item: WorkItem)

  /** The link workflow with the corrections of the findings (canonical id, the intended
      `_.find` predicate, every failed request reported) on the ticket's tags and the
      fetched work item: validate, plan, send the patch (if any), then tag the ticket.
      `refusal` is the server's answer to the patch request: `Some(message)` when the
      request fails, where `message` is the text of the `Error` the sidebar's `ajax`
      handler throws; then the ticket is not tagged, whatever the message. */
  function LinkFlow(input: string, tags: seq<string>, item: WorkItem, t: nat, ticketUrl: string,
                    refusal: Option<string>): (r: LinkOutcome)
    ensures r.LinkRejected? <==> ValidateLink(input, LinkedIds(tags)).Some?
    ensures r.LinkFailed? ==> PlanLink(item.relations, t, ticketUrl).SendPatch?
    ensures r.Linked? ==> r.tags == AddTag(tags, TagFor(CanonicalId(input))) && r.item.id == item.id
  {
    match ValidateLink(input, LinkedIds(tags))
    case Some(reason) => LinkRejected(reason)
    case None =>
      match PlanLink(item.relations, t, ticketUrl)
      case TagOnly => Linked(AddTag(tags, TagFor(CanonicalId(input))), item)
      case SendPatch(ops) =>
        if refusal.Some? then LinkFailed(Refused(refusal.value))
        else
          match ApplyPatch(item, ops)
          case Err(e) => LinkFailed(NotApplied(e))
          case Ok(item') => Linked(AddTag(tags, TagFor(CanonicalId(input))), item')
  }

  /** A link that passes validation and that the server accepts succeeds: the work item
      keeps its relations and ends with exactly one more, the ticket marker, only when
      it had none; the id is then reported as linked. */
  lemma LinkFlowEffect(input: string, tags: seq<string>, item: WorkItem, t: nat, ticketUrl: string)
    requires ValidateLink(input, LinkedIds(tags)).None?
    ensures LinkFlow(input, tags, item, t, ticketUrl, None).Linked?
    ensures var out := LinkFlow(input, tags, item, t, ticketUrl, None);
            CanonicalId(input) in LinkedIds(out.tags)
            && (exists i :: 0 <= i < |out.item.relations| && IsTicketLink(out.item.relations[i], ModalNameKey, t))
            && |item.relations| <= |out.item.relations| <= |item.relations| + 1
            && out.item.relations[..|item.relations|] == item.relations
  {
    var id := CanonicalId(input);
    var tags' := AddTag(tags, TagFor(id));
    LinkEffect(tags, id);
    assert id in LinkedIds(tags');
    var plan := PlanLink(item.relations, t, ticketUrl);
    if plan.TagOnly? {
      assert LinkFlow(input, tags, item, t, ticketUrl, None) == Linked(tags', item);
      assert item.relations[..|item.relations|] == item.relations;
    } else {
      var h := Hyperlink(ticketUrl, LinkMarker(t), None);
      HyperlinkPatchAppends(item, ticketUrl, LinkMarker(t), None);
      var item' := item.(relations := item.relations + [h]);
      assert ApplyPatch(item, plan.ops) == Ok(item');
      assert LinkFlow(input, tags, item, t, ticketUrl, None) == Linked(tags', item');
      assert IsTicketLink(item'.relations[|item.relations|], ModalNameKey, t);
      assert item'.relations[..|item.relations|] == item.relations;
    }
  }

  /** When the work item has no marker yet and the server refuses the patch, the link
      fails with the server's message and the ticket is not tagged: the outcome carries
      no tags, so the ticket keeps `tags`, where the id is not reported. */
  lemma LinkFlowRefused(input: string, tags: seq<string>, item: WorkItem, t: nat, ticketUrl: string, message: string)
    requires ValidateLink(input, LinkedIds(tags)).None?
    requires forall i :: 0 <= i < |item.relations| ==> !IsTicketLink(item.relations[i], ModalNameKey, t)
    ensures LinkFlow(input, tags, item, t, ticketUrl, Some(message)) == LinkFailed(Refused(message))
    ensures CanonicalId(input) !in LinkedIds(tags)
  {
  }

  /** With a marker already on the work item no request is sent, so a refusing server
      cannot make the link fail. */
  lemma LinkFlowTagOnlyIgnoresServer(input: string, tags: seq<string>, item: WorkItem, t: nat, ticketUrl: string,
                                     refusal: Option<string>)
    requires ValidateLink(input, LinkedIds(tags)).None?
    requires exists i :: 0 <= i < |item.relations| && IsTicketLink(item.relations[i], ModalNameKey, t)
    ensures LinkFlow(input, tags, item, t, ticketUrl, refusal) == LinkFlow(input, tags, item, t, ticketUrl, None)
    ensures LinkFlow(input, tags, item, t, ticketUrl, refusal) == Linked(AddTag(tags, TagFor(CanonicalId(input))), item)
  {
  }

  /** The link workflow as written at modal.js: the typed text is validated and used as
      the tag, the `async` predicate makes any work item with relations count as already
      linked, and a failed request whose message is empty reaches the modal as
      `{err: ""}`, which `onSidebarResponse` resolves, so the ticket is tagged although
      the patch was not applied. */
  function LinkFlowAsWritten(input: string, tags: seq<string>, item: WorkItem, t: nat, ticketUrl: string,
                             refusal: Option<string>): (r: LinkOutcome)
    ensures r.LinkRejected? <==> ValidateLinkAsWritten(input, LinkedIds(tags)).Some?
    ensures r.LinkFailed? ==> |item.relations| == 0
    ensures r.Linked? ==> r.tags == AddTag(tags, LinkTagAsWritten(input))
  {
    match ValidateLinkAsWritten(input, LinkedIds(tags))
    case Some(reason) => LinkRejected(reason)
    case None =>
      match PlanLinkAsWritten(item.relations, t, ticketUrl)
      case TagOnly => Linked(AddTag(tags, LinkTagAsWritten(input)), item)
      case SendPatch(ops) =>
        match refusal
        case Some(m) =>
          if m != "" then LinkFailed(Refused(m)) else Linked(AddTag(tags, LinkTagAsWritten(input)), item)
        case None =>
          match ApplyPatch(item, ops)
          case Err(e) => LinkFailed(NotApplied(e))
          case Ok(item') => Linked(AddTag(tags, LinkTagAsWritten(input)), item')
  }

  /** As written, a refusal with a non-empty message makes a link that sends a patch
      fail, and the ticket is not tagged. */
  lemma AsWrittenRefused(input: string, tags: seq<string>, item: WorkItem, t: nat, ticketUrl: string, message: string)
    requires ValidateLinkAsWritten(input, LinkedIds(tags)).None?
    requires |item.relations| == 0 && message != ""
    ensures LinkFlowAsWritten(input, tags, item, t, ticketUrl, Some(message)) == LinkFailed(Refused(message))
  {
  }

  /** The discrepancy for an empty message: as written the refused link still tags the
      ticket and leaves the work item without a marker; corrected, it fails and the
      ticket is not tagged. */
  lemma EmptyRefusalTagsWithoutMarker(input: string, tags: seq<string>, item: WorkItem, t: nat, ticketUrl: string)
    requires ValidateLinkAsWritten(input, LinkedIds(tags)).None?
    requires ValidateLink(input, LinkedIds(tags)).None?
    requires |item.relations| == 0
    ensures LinkFlowAsWritten(input, tags, item, t, ticketUrl, Some(""))
         == Linked(AddTag(tags, LinkTagAsWritten(input)), item)
    ensures input in LinkedIds(LinkFlowAsWritten(input, tags, item, t, ticketUrl, Some("")).tags)
    ensures LinkFlow(input, tags, item, t, ticketUrl, Some("")) == LinkFailed(Refused(""))
  {
    LinkEffect(tags, input);
    LinkFlowRefused(input, tags, item, t, ticketUrl, "");
  }

  /** The two flows side by side on a work item that has relations but no marker for
      this ticket: as written the ticket is tagged and the work item is left without a
      marker; corrected, the marker is appended. */
  lemma AsWrittenFlowLeavesNoMarker(input: string, tags: seq<string>, item: WorkItem, t: nat, url: string)
    requires ValidateLinkAsWritten(input, LinkedIds(tags)).None?
    requires ValidateLink(input, LinkedIds(tags)).None?
    requires |item.relations| > 0
    requires forall i :: 0 <= i < |item.relations| ==> !IsTicketLink(item.relations[i], ModalNameKey, t)
    ensures var asWritten := LinkFlowAsWritten(input, tags, item, t, url, None);
            asWritten == Linked(AddTag(tags, LinkTagAsWritten(input)), item)
            && forall i :: 0 <= i < |asWritten.item.relations| ==> !IsTicketLink(asWritten.item.relations[i], ModalNameKey, t)
    ensures var fixed := LinkFlow(input, tags, item, t, url, None);
            fixed.Linked? && exists i :: 0 <= i < |fixed.item.relations| && IsTicketLink(fixed.item.relations[i], ModalNameKey, t)
  {
    LinkFlowEffect(input, tags, item, t, url);
  }

  /** The result of the unlink workflow. */
  datatype UnlinkOutcome = UnlinkFailed(error: PatchError) | Unlinked(tags: seq<string>, item: WorkItem)

  /** The whole unlink workflow: the patch is computed from the `fetched` work item and
      applied by the server to its `current` state; on success the ticket loses the tag
      of the work item's numeric id. */
  function UnlinkFlow(tags: seq<string>, fetched: WorkItem, current: WorkItem, t: nat): (r: UnlinkOutcome)
    ensures r.Unlinked? ==> r.tags == RemoveTag(tags, TagFor(NatToString(fetched.id)))
    ensures r.UnlinkFailed? ==> UnlinkPatch(fetched, t).Some?
  {
    match UnlinkPatch(fetched, t)
    case None => Unlinked(RemoveTag(tags, TagFor(NatToString(fetched.id))), current)
    case Some(ops) =>
      match ApplyPatch(current, ops)
      case Err(e) => UnlinkFailed(e)
      case Ok(item') => Unlinked(RemoveTag(tags, TagFor(NatToString(fetched.id))), item')
  }

  /** Without a concurrent change, unlinking succeeds, leaves no marker for the ticket,
      keeps every other relation in order, and stops reporting the id as linked. */
  lemma UnlinkFlowEffect(tags: seq<string>, w: WorkItem, t: nat)
    ensures UnlinkFlow(tags, w, w, t).Unlinked?
    ensures var out := UnlinkFlow(tags, w, w, t);
            out.item.relations == Kept(w.relations, ModalNameKey, t)
            && (forall i :: 0 <= i < |out.item.relations| ==> !IsTicketMarker(out.item.relations[i], ModalNameKey, t))
            && NatToString(w.id) !in LinkedIds(out.tags)
  {
    var id := NatToString(w.id);
    UnlinkEffect(tags, id, id + "x");
    if UnlinkPatch(w, t).Some? {
      UnlinkPatchApplies(w, t);
    } else {
      KeptAllWhenNoMarker(w.relations, ModalNameKey, t);
    }
  }

  /** Without markers there is nothing to remove, so every relation is kept. */
  lemma {:induction false} KeptAllWhenNoMarker(rels: seq<Relation>, key: string, t: nat)
    requires forall i :: 0 <= i < |rels| ==> !IsTicketMarker(rels[i], key, t)
    ensures Kept(rels, key, t) == rels
  {
    if |rels| > 0 {
      var init := rels[..|rels| - 1];
      var last := rels[|rels| - 1];
      assert rels == init + [last];
      assert forall i :: 0 <= i < |init| ==> init[i] == rels[i];
      KeptAllWhenNoMarker(init, key, t);
      KeptSnoc(init, last, key, t);
    }
  }

  /** A concurrent revision makes an unlink that needs a patch fail, and then the ticket
      keeps its tag (the outcome carries no new tags). */
  lemma UnlinkFlowStale(tags: seq<string>, fetched: WorkItem, current: WorkItem, t: nat)
    requires UnlinkPatch(fetched, t).Some? && current.rev != fetched.rev
    ensures UnlinkFlow(tags, fetched, current, t) == UnlinkFailed(TestFailed)
  {
    UnlinkPatchStale(fetched, current, t);
  }

  /** The tag `linkTicket` adds as written: built from the text typed in the dialog,
      while unlinking builds it from the work item's numeric id. */
  function LinkTagAsWritten(input: string): string {
    TagFor(input)
  }

  /** The discrepancy: linking "007" and then unlinking work item 7 leaves "007"
      reported as linked. */
  lemma LeadingZeroLinkSurvivesUnlink()
    ensures IsDigits("007") && ParseDigits("007") == 7
    ensures "007" in LinkedIds(RemoveTag(AddTag([], LinkTagAsWritten("007")), TagFor(NatToString(7))))
  {
    assert "007"[..2] == "00" && "00"[..1] == "0" && "0"[..0] == "";
    assert ParseDigits("00") == 0;
    assert NatToString(7) == "7";
    assert LinkTagAsWritten("007") == "vso_wi_007";
    var tags := AddTag([], "vso_wi_007");
    assert tags == ["vso_wi_007"];
    assert "vso_wi_007" != "vso_wi_7";
    assert TagFor("7") == "vso_wi_7";
    assert RemoveTag(tags, "vso_wi_7") == ["vso_wi_007"];
    LinkedIdsMembership(["vso_wi_007"], "007");
    assert TagFor("007") == "vso_wi_007";
  }

  /** The validation as written: the typed text itself is looked up among the linked
      ids (`_.contains(ids, workItemId)`). */
  function ValidateLinkAsWritten(input: string, linkedIds: seq<string>): (r: Option<LinkRejection>)
    ensures r == Some(NotANumber) <==> !IsDigits(input)
    ensures r == Some(AlreadyLinked) <==> IsDigits(input) && input in linkedIds
  {
    if !IsDigits(input) then Some(NotANumber)
    else if input in linkedIds then Some(AlreadyLinked)
    else None
  }

  /** The discrepancy at validation: with work item 7 linked, "007" passes the check as
      written and would be linked a second time under another tag; the canonical check
      rejects it. */
  lemma LeadingZeroPassesValidation()
    ensures ValidateLinkAsWritten("007", ["7"]).None?
    ensures ValidateLink("007", ["7"]) == Some(AlreadyLinked)
  {
    assert "007"[..2] == "00" && "00"[..1] == "0" && "0"[..0] == "";
    assert ParseDigits("00") == 0;
    assert NatToString(7) == "7";
    assert CanonicalId("007") == "7";
  }

  /** With the tag built from the canonical id, linking a new work item and then
      unlinking it restores the ticket's tags, and the id is no longer reported. */
  lemma LinkThenUnlinkRestoresTags(input: string, tags: seq<string>, item: WorkItem, t: nat, ticketUrl: string)
    requires ValidateLink(input, LinkedIds(tags)).None?
    requires item.id == ParseDigits(input)
    ensures LinkFlow(input, tags, item, t, ticketUrl, None).Linked?
    ensures var linked := LinkFlow(input, tags, item, t, ticketUrl, None);
            var out := UnlinkFlow(linked.tags, linked.item, linked.item, t);
            out.Unlinked? && out.tags == tags && CanonicalId(input) !in LinkedIds(out.tags)
  {
    var id := CanonicalId(input);
    LinkFlowEffect(input, tags, item, t, ticketUrl);
    var linked := LinkFlow(input, tags, item, t, ticketUrl, None);
    UnlinkFlowEffect(linked.tags, linked.item, t);
    LinkedIdsMembership(tags, id);
    UnlinkUndoesLink(tags, id);
  }
}
