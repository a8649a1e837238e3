/** Work items, their relations, and the JSON Patch documents (RFC 6902) the
    extension sends to update them, with the patch semantics of RFC 6902 section 3:
    operations apply in order, each to the result of the previous one, and the
    whole patch fails if any operation fails (RFC 6902 section 5). */
module WorkItems {
  import opened Wrappers
  import opened Strings
  import opened JsonValues

  /** A work-item relation: `rel` (e.g. "Hyperlink"), the target `url`, and the
      string-valued `attributes` object. */
  datatype Relation = Relation(rel: string, url: string, attributes: map<string, string>)

  datatype WorkItem = WorkItem(id: nat, rev: int, relations: seq<Relation>, fields: map<string, string>)

  const LinkMarkerPrefix: string := "ZendeskLinkTo_Ticket_"
  const AttachmentMarkerPrefix: string := "ZendeskLinkTo_Attachment_Ticket_"

  /** `VSO_ZENDESK_LINK_TO_TICKET_PREFIX + ticket.id`. */
  function LinkMarker(ticketId: nat): string {
    LinkMarkerPrefix + NatToString(ticketId)
  }

  /** `VSO_ZENDESK_LINK_TO_TICKET_ATTACHMENT_PREFIX + ticket.id`. */
  function AttachmentMarker(ticketId: nat): string {
    AttachmentMarkerPrefix + NatToString(ticketId)
  }

  /** The two markers never coincide, and each determines the ticket. */
  lemma MarkersDistinct(a: nat, b: nat)
    ensures LinkMarker(a) != AttachmentMarker(b)
    ensures LinkMarker(a) == LinkMarker(b) <==> a == b
    ensures AttachmentMarker(a) == AttachmentMarker(b) <==> a == b
  {
    assert LinkMarker(a)[14] == LinkMarkerPrefix[14] == 'T';
    assert AttachmentMarker(b)[14] == AttachmentMarkerPrefix[14] == 'A';
    if LinkMarker(a) == LinkMarker(b) {
      assert NatToString(a) == LinkMarker(a)[|LinkMarkerPrefix|..];
      ParseNatToString(a);
      ParseNatToString(b);
    }
    if AttachmentMarker(a) == AttachmentMarker(b) {
      assert NatToString(a) == AttachmentMarker(a)[|AttachmentMarkerPrefix|..];
      ParseNatToString(a);
      ParseNatToString(b);
    }
  }

  /** The JSON Pointer (RFC 6901) targets the extension patches. */
  datatype Path = Rev | RelationAt(index: nat) | RelationsEnd | Field(name: string)

  function RenderPath(p: Path): (s: string)
    ensures StartsWith(s, "/")
  {
    match p
    case Rev => "/rev"
    case RelationAt(i) => "/relations/" + NatToString(i)
    case RelationsEnd => "/relations/-"
    case Field(name) => "/fields/" + name
  }

  /** Reads a pointer back; array indices must be canonical decimal (no leading zeros),
      as section 4 of RFC 6901 requires. */
  function ParsePath(s: string): Option<Path> {
    if s == "/rev" then Some(Rev)
    else if s == "/relations/-" then Some(RelationsEnd)
    else if StartsWith(s, "/relations/") then
      var t := s[11..];
      if IsDigits(t) && t == NatToString(ParseDigits(t)) then Some(RelationAt(ParseDigits(t)))
      else None
    else if StartsWith(s, "/fields/") then Some(Field(s[8..]))
    else None
  }

  lemma PathRoundTrip(p: Path)
    ensures ParsePath(RenderPath(p)) == Some(p)
  {
    match p
    case Rev =>
    case RelationsEnd =>
    case RelationAt(i) =>
      var s := RenderPath(p);
      assert s[11..] == NatToString(i);
      assert s != "/rev" && s != "/relations/-" by {
        assert s[11] != '-';
      }
      ParseNatToString(i);
    case Field(name) =>
      var s := RenderPath(p);
      assert s[..8] == "/fields/";
      assert s != "/rev" && s != "/relations/-" by {
        assert s[1] == 'f';
      }
      assert !StartsWith(s, "/relations/") by {
        assert s[1] == 'f';
      }
  }

  datatype OpValue = NoValue | RevValue(rev: int) | RelationValue(relation: Relation) | TextValue(text: string)

  datatype OpKind = TestOp | RemoveOp | AddOp

  /** One JSON Patch operation `{op, path, value}`. */
  datatype Op = Op(op: OpKind, path: Path, value: OpValue)

  function OpName(k: OpKind): string {
    match k
    case TestOp => "test"
    case RemoveOp => "remove"
    case AddOp => "add"
  }

  datatype PatchError = TestFailed | NoSuchTarget | Unsupported

  /** `rels` without the element at `i`. */
  function RemoveAt<T>(s: seq<T>, i: nat): (r: seq<T>)
    requires i < |s|
    ensures |r| == |s| - 1
    ensures forall j :: 0 <= j < i ==> r[j] == s[j]
    ensures forall j :: i <= j < |r| ==> r[j] == s[j + 1]
  {
    s[..i] + s[i + 1..]
  }

  /** One operation on a work item: `test` of `/rev` (RFC 6902 section 4.6), `remove`
      of a relation (RFC 6902 section 4.2), `add` of a relation at an index or at the
      end `-`, or of a field value (RFC 6902 section 4.1). */
  function ApplyOp(w: WorkItem, o: Op): (r: Result<WorkItem, PatchError>)
    ensures r.Ok? && o.op == TestOp ==> r.value == w
    ensures r.Ok? ==> r.value.id == w.id && r.value.rev == w.rev
  {
    match (o.op, o.path, o.value)
    case (TestOp, Rev, RevValue(n)) => if w.rev == n then Ok(w) else Err(TestFailed)
    case (RemoveOp, RelationAt(i), NoValue) =>
      if i < |w.relations| then Ok(w.(relations := RemoveAt(w.relations, i))) else Err(NoSuchTarget)
    case (AddOp, RelationsEnd, RelationValue(rel)) => Ok(w.(relations := w.relations + [rel]))
    case (AddOp, RelationAt(i), RelationValue(rel)) =>
      if i <= |w.relations| then Ok(w.(relations := w.relations[..i] + [rel] + w.relations[i..]))
      else Err(NoSuchTarget)
    case (AddOp, Field(name), TextValue(v)) => Ok(w.(fields := w.fields[name := v]))
    case _ => Err(Unsupported)
  }

  /** The whole patch, in order; the first failure aborts it and nothing applies. */
  function ApplyPatch(w: WorkItem, ops: seq<Op>): (r: Result<WorkItem, PatchError>)
    ensures r.Ok? ==> r.value.id == w.id && r.value.rev == w.rev
    decreases |ops|
  {
    if |ops| == 0 then Ok(w)
    else
      match ApplyOp(w, ops[0])
      case Err(e) => Err(e)
      case Ok(w') => ApplyPatch(w', ops[1..])
  }

  lemma {:induction false} ApplyPatchAppend(w: WorkItem, a: seq<Op>, b: seq<Op>)
    ensures ApplyPatch(w, a + b)
         == (match ApplyPatch(w, a) case Err(e) => Err(e) case Ok(w') => ApplyPatch(w', b))
    decreases |a|
  {
    if |a| == 0 {
      assert a + b == b;
    } else {
      assert (a + b)[1..] == a[1..] + b;
      if ApplyOp(w, a[0]).Ok? {
        ApplyPatchAppend(ApplyOp(w, a[0]).value, a[1..], b);
      }
    }
  }

  /** `value.replace(/\n/g, "<br>")`. */
  function ReplaceNewlines(s: string): (r: string)
    ensures '\n' !in r
    ensures |r| >= |s|
  {
    if |s| == 0 then ""
    else (if s[0] == '\n' then "<br>" else [s[0]]) + ReplaceNewlines(s[1..])
  }

  /** The reverse rewrite, `<br>` back to a line break. */
  function RestoreNewlines(s: string): string {
    if |s| == 0 then ""
    else if StartsWith(s, "<br>") then "\n" + RestoreNewlines(s[4..])
    else [s[0]] + RestoreNewlines(s[1..])
  }

  /** Text without `<` survives the rewrite: restoring gives the original back. */
  lemma {:induction false} NewlinesRoundTrip(s: string)
    ensures '<' !in s ==> RestoreNewlines(ReplaceNewlines(s)) == s
  {
    if |s| > 0 && '<' !in s {
      NewlinesRoundTrip(s[1..]);
      var r := ReplaceNewlines(s);
      if s[0] == '\n' {
        assert r[..4] == "<br>";
        assert r[4..] == ReplaceNewlines(s[1..]);
      } else {
        assert r[0] == s[0] && r[1..] == ReplaceNewlines(s[1..]);
        assert !StartsWith(r, "<br>");
      }
      assert s == [s[0]] + s[1..];
    }
  }

  lemma {:induction false} ReplaceNewlinesIdentity(s: string)
    requires '\n' !in s
    ensures ReplaceNewlines(s) == s
  {
    if |s| > 0 {
      ReplaceNewlinesIdentity(s[1..]);
      assert s == [s[0]] + s[1..];
    }
  }

  /** A known field: its reference name, display name and type (`""` when the
      server gave none). */
  datatype FieldDef = FieldDef(refName: string, name: string, fieldType: string)

  /** `_.find(fields, f => f.refName == refName)`. */
  function FindField(fields: seq<FieldDef>, refName: string): (r: Option<FieldDef>)
    ensures r.Some? <==> exists i :: 0 <= i < |fields| && fields[i].refName == refName
    ensures r.Some? ==> exists i :: 0 <= i < |fields| && fields[i] == r.value
                          && fields[i].refName == refName
                          && forall j :: 0 <= j < i ==> fields[j].refName != refName
  {
    if |fields| == 0 then None
    else if fields[0].refName == refName then Some(fields[0])
    else
      var r := FindField(fields[1..], refName);
      assert forall i :: 0 < i < |fields| ==> fields[i] == fields[1..][i - 1];
      if r.Some? then
        var k :| 0 <= k < |fields[1..]| && fields[1..][k] == r.value && fields[1..][k].refName == refName
                  && forall j :: 0 <= j < k ==> fields[1..][j].refName != refName;
        assert fields[k + 1] == r.value;
        r
      else r
  }

  predicate IsHtmlType(t: string) {
    Lower(t) == "html" || Lower(t) == "history"
  }

  /** `isHtmlContentField` (sidebar and modal): the first known field with that
      reference name has a type that lower-cases to `html` or `history`. */
  function IsHtmlContentField(fields: seq<FieldDef>, refName: string): (b: bool)
    ensures b <==> exists i :: 0 <= i < |fields| && fields[i].refName == refName
                    && (forall j :: 0 <= j < i ==> fields[j].refName != refName)
                    && IsHtmlType(fields[i].fieldType)
  {
    var f := FindField(fields, refName);
    if f.Some? && f.value.fieldType != "" then
      var t := Lower(f.value.fieldType);
      t == "html" || t == "history"
    else
      assert forall i :: 0 <= i < |fields| && fields[i].refName == refName
                && (forall j :: 0 <= j < i ==> fields[j].refName != refName)
                ==> fields[i] == f.value && !IsHtmlType(fields[i].fieldType) by {
        forall i | 0 <= i < |fields| && fields[i].refName == refName
                   && (forall j :: 0 <= j < i ==> fields[j].refName != refName)
          ensures fields[i] == f.value && !IsHtmlType(fields[i].fieldType)
        {
          var k :| 0 <= k < |fields| && fields[k] == f.value && fields[k].refName == refName
                    && forall j :: 0 <= j < k ==> fields[j].refName != refName;
          assert k == i;
        }
      }
      false
  }

  /** `buildPatchToAddWorkItemField`: an `add` of `/fields/<name>`; for an HTML or
      history field, line breaks become `<br>`. */
  function FieldPatch(fields: seq<FieldDef>, name: string, value: string): (o: Op)
    ensures o.op == AddOp && o.path == Field(name) && o.value.TextValue?
    ensures IsHtmlContentField(fields, name) ==> '\n' !in o.value.text
    ensures IsHtmlContentField(fields, name) && '<' !in value ==> RestoreNewlines(o.value.text) == value
    ensures !IsHtmlContentField(fields, name) ==> o.value.text == value
  {
    if IsHtmlContentField(fields, name) then
      NewlinesRoundTrip(value);
      Op(AddOp, Field(name), TextValue(ReplaceNewlines(value)))
    else Op(AddOp, Field(name), TextValue(value))
  }

  /** Applying a field patch stores the (possibly rewritten) value under the field and
      changes nothing else. */
  lemma FieldPatchApplies(w: WorkItem, fields: seq<FieldDef>, name: string, value: string)
    ensures ApplyPatch(w, [FieldPatch(fields, name, value)]).Ok?
    ensures var w' := ApplyPatch(w, [FieldPatch(fields, name, value)]).value;
            name in w'.fields && w'.relations == w.relations && w'.rev == w.rev
            && (forall k :: k in w.fields && k != name ==> k in w'.fields && w'.fields[k] == w.fields[k])
            && ('\n' !in value ==> w'.fields[name] == value)
  {
    if '\n' !in value {
      ReplaceNewlinesIdentity(value);
    }
  }

  /** `link.rel.toLowerCase() === "hyperlink"`. */
  predicate IsHyperlinkRel(rel: string) {
    Lower(rel) == "hyperlink"
  }

  lemma HyperlinkRelLower()
    ensures IsHyperlinkRel("Hyperlink")
  {
    var r := Lower("Hyperlink");
    assert r[0] == 'h' && r[1] == 'y' && r[2] == 'p' && r[3] == 'e' && r[4] == 'r';
    assert r[5] == 'l' && r[6] == 'i' && r[7] == 'n' && r[8] == 'k';
    assert r == "hyperlink";
  }

  /** The relation `buildPatchToAddWorkItemHyperlink(url, name, comment)` adds:
      rel "Hyperlink" and attributes `{name, comment}`; an undefined comment is not
      serialised. */
  function Hyperlink(url: string, name: string, comment: Option<string>): (r: Relation)
    ensures IsHyperlinkRel(r.rel)
    ensures "name" in r.attributes && r.attributes["name"] == name
    ensures "comment" in r.attributes <==> comment.Some?
  {
    HyperlinkRelLower();
    var attrs := map["name" := name];
    var attrs := if comment.Some? then attrs["comment" := comment.value] else attrs;
    Relation("Hyperlink", url, attrs)
  }

  /** The `add` to `/relations/-` that appends the hyperlink. */
  function HyperlinkPatch(url: string, name: string, comment: Option<string>): (o: Op)
    ensures o.op == AddOp && o.path == RelationsEnd
    ensures o.value == RelationValue(Hyperlink(url, name, comment))
  {
    Op(AddOp, RelationsEnd, RelationValue(Hyperlink(url, name, comment)))
  }

  /** A hyperlink patch always applies and appends exactly its relation. */
  lemma HyperlinkPatchAppends(w: WorkItem, url: string, name: string, comment: Option<string>)
    ensures ApplyPatch(w, [HyperlinkPatch(url, name, comment)])
         == Ok(w.(relations := w.relations + [Hyperlink(url, name, comment)]))
  {
  }

  datatype Attachment = Attachment(url: string, name: string)

  /** `buildPatchToAddWorkItemAttachments`: one hyperlink per attachment, named with
      the attachment marker and commented with the file name. */
  function AttachmentPatches(atts: seq<Attachment>, ticketId: nat): (ops: seq<Op>)
    ensures |ops| == |atts|
    ensures forall i :: 0 <= i < |atts| ==>
              ops[i] == HyperlinkPatch(atts[i].url, AttachmentMarker(ticketId), Some(atts[i].name))
  {
    seq(|atts|, i requires 0 <= i < |atts| => HyperlinkPatch(atts[i].url, AttachmentMarker(ticketId), Some(atts[i].name)))
  }

  /** The patch that appends each relation of `rs` in turn at `/relations/-`. */
  function AppendOps(rs: seq<Relation>): (ops: seq<Op>)
    ensures |ops| == |rs|
    ensures forall i :: 0 <= i < |rs| ==> ops[i] == Op(AddOp, RelationsEnd, RelationValue(rs[i]))
  {
    seq(|rs|, i requires 0 <= i < |rs| => Op(AddOp, RelationsEnd, RelationValue(rs[i])))
  }

  /** Appending relations one by one appends them all, in order. */
  lemma {:induction false} AppendOpsApply(w: WorkItem, rs: seq<Relation>)
    ensures ApplyPatch(w, AppendOps(rs)) == Ok(w.(relations := w.relations + rs))
    decreases |rs|
  {
    if |rs| == 0 {
      assert w.relations + rs == w.relations;
    } else {
      var w1 := w.(relations := w.relations + [rs[0]]);
      assert ApplyOp(w, AppendOps(rs)[0]) == Ok(w1);
      assert AppendOps(rs)[1..] == AppendOps(rs[1..]);
      AppendOpsApply(w1, rs[1..]);
      assert w.relations + [rs[0]] + rs[1..] == w.relations + rs;
    }
  }

  /** Applying the attachment patches appends one marked relation per attachment,
      in order. */
  lemma AttachmentPatchesAppend(w: WorkItem, atts: seq<Attachment>, ticketId: nat)
    ensures ApplyPatch(w, AttachmentPatches(atts, ticketId)).Ok?
    ensures var rels := ApplyPatch(w, AttachmentPatches(atts, ticketId)).value.relations;
            |rels| == |w.relations| + |atts| && rels[..|w.relations|] == w.relations
            && forall i :: 0 <= i < |atts| ==>
                 rels[|w.relations| + i] == Hyperlink(atts[i].url, AttachmentMarker(ticketId), Some(atts[i].name))
  {
    var rs := seq(|atts|, i requires 0 <= i < |atts| => Hyperlink(atts[i].url, AttachmentMarker(ticketId), Some(atts[i].name)));
    assert AttachmentPatches(atts, ticketId) == AppendOps(rs);
    AppendOpsApply(w, rs);
    assert (w.relations + rs)[..|w.relations|] == w.relations;
  }

  /** `buildPatchToRemoveWorkItemHyperlink(pos)`. */
  function RemovePatch(pos: nat): (o: Op)
    ensures o.op == RemoveOp && ParsePath(RenderPath(o.path)) == Some(RelationAt(pos))
  {
    PathRoundTrip(RelationAt(pos));
    Op(RemoveOp, RelationAt(pos), NoValue)
  }

  /** The wire form of a relation. */
  function RelationJson(r: Relation, nameKey: string): Json {
    var attrs := (if "name" in r.attributes then [Member(nameKey, JStr(r.attributes["name"]))] else [])
               + (if "comment" in r.attributes then [Member("comment", JStr(r.attributes["comment"]))] else []);
    JObj([Member("rel", JStr(r.rel)), Member("url", JStr(r.url)), Member("attributes", JObj(attrs))])
  }

  /** The wire form of an operation; `opKey` is the member naming the operation. */
  function OpJson(o: Op, opKey: string, nameKey: string): (j: Json)
    requires opKey != "path"
    ensures j.JObj? && Lookup(j.members, opKey) == Some(JStr(OpName(o.op)))
    ensures Lookup(j.members, "path") == Some(JStr(RenderPath(o.path)))
  {
    var head := [Member(opKey, JStr(OpName(o.op))), Member("path", JStr(RenderPath(o.path)))];
    match o.value
    case NoValue => JObj(head)
    case RevValue(n) => JObj(head + [Member("value", JNum(n))])
    case RelationValue(r) => JObj(head + [Member("value", RelationJson(r, nameKey))])
    case TextValue(t) => JObj(head + [Member("value", JStr(t))])
  }

  /** The legacy `buildAddWorkItemHyperlinkOperation(url, name)`: the operation name
      sits under `operation` and the marker under attribute `Name`. */
  function LegacyHyperlinkOperation(url: string, name: string): (j: Json)
    ensures j.JObj? && Lookup(j.members, "operation") == Some(JStr("add"))
    ensures Lookup(j.members, "op") == None
    ensures Lookup(j.members, "path") == Some(JStr("/relations/-"))
  {
    OpJson(Op(AddOp, RelationsEnd, RelationValue(Relation("Hyperlink", url, map["name" := name]))), "operation", "Name")
  }

  /** The `value.attributes` members of an operation's wire form, when it has them. */
  function ValueAttributes(j: Json): Option<seq<Member>> {
    if !j.JObj? then None
    else match Lookup(j.members, "value")
      case Some(JObj(vm)) =>
        (match Lookup(vm, "attributes")
         case Some(JObj(am)) => Some(am)
         case _ => None)
      case _ => None
  }

  /** The current builder serialises under `op` (section 4 of RFC 6902) and attribute
      `name`, where the legacy one used `operation` and `Name`: both add at the same
      path, but each form carries the marker under its own attribute key only. */
  lemma HyperlinkWireForms(url: string, name: string)
    ensures var j := OpJson(HyperlinkPatch(url, name, None), "op", "name");
            Lookup(j.members, "op") == Some(JStr("add"))
            && Lookup(j.members, "path") == Lookup(LegacyHyperlinkOperation(url, name).members, "path")
    ensures var a := ValueAttributes(OpJson(HyperlinkPatch(url, name, None), "op", "name"));
            a.Some? && Lookup(a.value, "name") == Some(JStr(name)) && Lookup(a.value, "Name") == None
    ensures var a := ValueAttributes(LegacyHyperlinkOperation(url, name));
            a.Some? && Lookup(a.value, "Name") == Some(JStr(name)) && Lookup(a.value, "name") == None
  {
    var o := Op(AddOp, RelationsEnd, RelationValue(Relation("Hyperlink", url, map["name" := name])));
    assert HyperlinkPatch(url, name, None) == o;
    assert LegacyHyperlinkOperation(url, name) == OpJson(o, "operation", "Name");
    var j := OpJson(o, "op", "name");
    assert Lookup(j.members, "path") == Some(JStr("/relations/-"));
    MarkerAttributes(url, name, "op", "name");
    MarkerAttributes(url, name, "operation", "Name");
    LookupSingle(Member("name", JStr(name)), "Name");
    LookupSingle(Member("Name", JStr(name)), "name");
  }

  /** Looking a key up in a single member. */
  lemma LookupSingle(m: Member, key: string)
    ensures Lookup([m], key) == if m.key == key then Some(m.value) else None
  {
    assert [m][1..] == [];
  }

  /** The attributes of a marker hyperlink's wire form hold just the marker, under the
      given key. */
  lemma MarkerAttributes(url: string, name: string, opKey: string, nameKey: string)
    requires opKey != "path" && opKey != "value"
    ensures ValueAttributes(OpJson(Op(AddOp, RelationsEnd, RelationValue(Relation("Hyperlink", url, map["name" := name]))), opKey, nameKey))
         == Some([Member(nameKey, JStr(name))])
  {
    var r := Relation("Hyperlink", url, map["name" := name]);
    var attrs := [Member(nameKey, JStr(name))];
    assert "comment" !in r.attributes && r.attributes["name"] == name;
    assert attrs + [] == attrs;
    var vm := [Member("rel", JStr(r.rel)), Member("url", JStr(r.url)), Member("attributes", JObj(attrs))];
    assert RelationJson(r, nameKey) == JObj(vm);
    LookupThird(vm[0], vm[1], vm[2], "attributes");
    var head := [Member(opKey, JStr(OpName(AddOp))), Member("path", JStr(RenderPath(RelationsEnd)))];
    assert head + [Member("value", JObj(vm))] == [head[0], head[1], Member("value", JObj(vm))];
    LookupThird(head[0], head[1], Member("value", JObj(vm)), "value");
  }

  /** Looking a key up in three members when the first two have other keys. */
  lemma LookupThird(m0: Member, m1: Member, m2: Member, key: string)
    requires m0.key != key && m1.key != key
    ensures Lookup([m0, m1, m2], key) == if m2.key == key then Some(m2.value) else None
  {
    LookupSingle(m2, key);
    assert [m1, m2][1..] == [m2];
    assert Lookup([m1, m2], key) == Lookup([m2], key);
    assert [m0, m1, m2][1..] == [m1, m2];
  }
}
