/** The link-tag codec: a ticket is linked to work item `id` exactly when it carries
    the tag `"vso_wi_" + id`. `linkTicket`/`unlinkTicket` build the tag and
    `getLinkedWorkItemIds` reads the ids back from the ticket's tag list. */
module LinkTags {
  import opened Strings

  const TagPrefix: string := "vso_wi_"

  /** `TAG_PREFIX + workItemId`. */
  function TagFor(id: string): (t: string)
    ensures StartsWith(t, TagPrefix) && t[|TagPrefix|..] == id
  {
    TagPrefix + id
  }

  /** The id a tag encodes: `t.indexOf(TAG_PREFIX) === 0 ? t.slice(TAG_PREFIX.length)
      : undefined`, where `_.compact` later drops both `undefined` and `""`. */
  function TagId(t: string): string {
    if StartsWith(t, TagPrefix) then t[|TagPrefix|..] else ""
  }

  /** `getLinkedWorkItemIds` (both versions): the non-empty suffixes of the tags that
      begin with the prefix, in tag order. */
  function LinkedIds(tags: seq<string>): (ids: seq<string>)
    ensures |ids| <= |tags|
    ensures forall i :: 0 <= i < |ids| ==> ids[i] != ""
  {
    if |tags| == 0 then []
    else
      var id := TagId(tags[0]);
      (if id == "" then [] else [id]) + LinkedIds(tags[1..])
  }

  lemma {:induction false} LinkedIdsAppend(a: seq<string>, b: seq<string>)
    ensures LinkedIds(a + b) == LinkedIds(a) + LinkedIds(b)
  {
    if |a| == 0 {
      assert a + b == b;
    } else {
      assert (a + b)[1..] == a[1..] + b;
      LinkedIdsAppend(a[1..], b);
    }
  }

  lemma TagIdOfTagFor(id: string)
    ensures TagId(TagFor(id)) == id
  {
  }

  /** A tag encodes `id` exactly when it is `TagFor(id)`. */
  lemma TagIdInverse(t: string, id: string)
    requires id != ""
    ensures TagId(t) == id <==> t == TagFor(id)
  {
    if TagId(t) == id {
      assert t == t[..|TagPrefix|] + t[|TagPrefix|..];
    }
  }

  /** An id is reported as linked exactly when it is non-empty and its tag is on the
      ticket; the bare tag `"vso_wi_"` reports nothing. */
  lemma {:induction false} LinkedIdsMembership(tags: seq<string>, id: string)
    ensures id in LinkedIds(tags) <==> id != "" && TagFor(id) in tags
  {
    if |tags| > 0 {
      LinkedIdsMembership(tags[1..], id);
      if id != "" {
        TagIdInverse(tags[0], id);
      }
      assert tags == [tags[0]] + tags[1..];
    }
  }

  /** Tags without the prefix contribute nothing. */
  lemma {:induction false} LinkedIdsIgnoresOtherTags(tags: seq<string>)
    requires forall i :: 0 <= i < |tags| ==> !StartsWith(tags[i], TagPrefix)
    ensures LinkedIds(tags) == []
  {
    if |tags| > 0 {
      LinkedIdsIgnoresOtherTags(tags[1..]);
    }
  }

  /** Round trip: the tag `linkTicket` builds for a non-empty id reads back as exactly
      that id. */
  lemma TagRoundTrip(id: string)
    requires id != ""
    ensures LinkedIds([TagFor(id)]) == [id]
  {
    assert [TagFor(id)][1..] == [];
  }

  /** The host's `ticket.tags.add`: a tag set, so adding a present tag changes nothing. */
  function AddTag(tags: seq<string>, t: string): (r: seq<string>)
    ensures t in r
    ensures forall x :: x in tags ==> x in r
    ensures forall x :: x in r ==> x in tags || x == t
  {
    if t in tags then tags else tags + [t]
  }

  /** The host's `ticket.tags.remove`: every copy of the tag goes, the rest keep their
      order. */
  function RemoveTag(tags: seq<string>, t: string): (r: seq<string>)
    ensures t !in r
    ensures forall x :: x in r <==> x in tags && x != t
  {
    if |tags| == 0 then []
    else (if tags[0] == t then [] else [tags[0]]) + RemoveTag(tags[1..], t)
  }

  lemma {:induction false} RemoveAbsentTag(tags: seq<string>, t: string)
    requires t !in tags
    ensures RemoveTag(tags, t) == tags
  {
    if |tags| > 0 {
      RemoveAbsentTag(tags[1..], t);
      assert tags == [tags[0]] + tags[1..];
    }
  }

  lemma {:induction false} RemoveTagAppend(a: seq<string>, b: seq<string>, t: string)
    ensures RemoveTag(a + b, t) == RemoveTag(a, t) + RemoveTag(b, t)
  {
    if |a| == 0 {
      assert a + b == b;
    } else {
      assert (a + b)[1..] == a[1..] + b;
      RemoveTagAppend(a[1..], b, t);
    }
  }

  /** Linking a non-empty id makes it reported as linked and keeps every id already
      reported; a new id is reported last. */
  lemma LinkEffect(tags: seq<string>, id: string)
    requires id != ""
    ensures id in LinkedIds(AddTag(tags, TagFor(id)))
    ensures TagFor(id) !in tags ==> LinkedIds(AddTag(tags, TagFor(id))) == LinkedIds(tags) + [id]
    ensures TagFor(id) in tags ==> LinkedIds(AddTag(tags, TagFor(id))) == LinkedIds(tags)
  {
    LinkedIdsMembership(AddTag(tags, TagFor(id)), id);
    if TagFor(id) !in tags {
      LinkedIdsAppend(tags, [TagFor(id)]);
      TagRoundTrip(id);
    }
  }

  /** Unlinking stops reporting `id` and reports every other id as before. */
  lemma UnlinkEffect(tags: seq<string>, id: string, other: string)
    requires other != id
    ensures id !in LinkedIds(RemoveTag(tags, TagFor(id)))
    ensures other in LinkedIds(RemoveTag(tags, TagFor(id))) <==> other in LinkedIds(tags)
  {
    LinkedIdsMembership(RemoveTag(tags, TagFor(id)), id);
    LinkedIdsMembership(RemoveTag(tags, TagFor(id)), other);
    LinkedIdsMembership(tags, other);
    if other != "" {
      assert TagFor(other) != TagFor(id) by {
        assert TagFor(other)[|TagPrefix|..] == other;
      }
    }
  }

  /** Unlinking right after linking a new id restores the tag list exactly. */
  lemma UnlinkUndoesLink(tags: seq<string>, id: string)
    requires TagFor(id) !in tags
    ensures RemoveTag(AddTag(tags, TagFor(id)), TagFor(id)) == tags
  {
    RemoveTagAppend(tags, [TagFor(id)], TagFor(id));
    RemoveAbsentTag(tags, TagFor(id));
  }
}
