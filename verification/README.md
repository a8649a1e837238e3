# Zendesk ⇄ Azure DevOps link model

A Dafny model of the core of the Zendesk app that links Zendesk tickets to Visual Studio
Team Services (Azure DevOps) work items. The app runs as two browser frames. One is the
ticket sidebar (`src/javascripts/app.js`). The other is a modal dialog
(`src/javascripts/modal.js`). They talk through one `localStorage` slot and a
request/response event pair. The older single-frame app (`app.js`) is modelled where it
still differs.

The model covers:

- **Link tags** (`LinkTags`): a ticket records the work items it is linked to as tags
  `vso_wi_<id>`. Linking adds a tag and unlinking removes it. The linked ids are read back
  from the tags.
- **Relation reconciliation** (`WorkItems`, `LinkReconciler`): on the work item side, a
  link is a `Hyperlink` relation named `ZendeskLinkTo_Ticket_<ticket id>`. Linking appends
  one with an RFC 6902 (JSON Patch) `add` at `/relations/-`. Unlinking sends a `test` of
  `/rev` and then one `remove` per matching relation, at positions shifted for the earlier
  removals. A small JSON Patch interpreter (sections 4.1, 4.2 and 4.6 of RFC 6902) gives
  these patches a meaning.
- **Project metadata** (`ProjectMetadata`, `ProjectCache`, `ProjectList`): the project
  list is loaded page by page and sorted case-insensitively. Area trees are flattened
  into `\`-separated paths and sorted. Work item types are restricted to an allow-list.
  Metadata and queries are loaded once per project. Query results are reduced to at most
  200 ids. The modal reads a project through a copy-and-write-back "lease" of the shared
  project list.
- **URLs** (`Urls`): the account URL is built from the account setting. REST paths and
  query strings are joined. The API version is chosen per resource.
- **Cross-frame envelope** (`Envelope`, `Bridge`, `Sidebar`): the single message slot,
  the shared view-model store, the sidebar's action dispatcher with its `{err}`
  envelope, the modal's promise settling, and the sidebar's dirty flag that triggers one
  refresh when the modal closes.

The host calls (Zendesk tag requests, the VSTS REST API, `localStorage`) are parameters:
a response, or a `World` of functions. They are never performed.

## Model

| member | source | states |
|---|---|---|
| LinkTags.TagFor | src/javascripts/app.js:946-950 | the tag is the prefix `vso_wi_` followed by exactly the work item id |
| LinkTags.LinkedIds | src/javascripts/app.js:962-974 | never more ids than tags, and no reported id is empty |
| LinkTags.LinkedIdsAppend | src/javascripts/app.js:962-974 | tag order is kept: the ids of two tag lists joined are the two id lists joined |
| LinkTags.TagIdInverse | src/javascripts/app.js:966-971 | a tag decodes to a non-empty id exactly when it is that id's tag |
| LinkTags.LinkedIdsMembership | src/javascripts/app.js:962-974 | an id is reported if and only if it is non-empty and its tag is on the ticket |
| LinkTags.LinkedIdsIgnoresOtherTags | src/javascripts/app.js:966-971 | tags without the prefix contribute no ids |
| LinkTags.TagRoundTrip | src/javascripts/app.js:946-974 | the tag written for an id reads back as exactly that id |
| LinkTags.AddTag | src/javascripts/app.js:946-950 | after adding, the tag is present, every earlier tag is kept and nothing else appears |
| LinkTags.RemoveTag | src/javascripts/app.js:951-955 | after removing, the tag is gone and exactly the other tags remain |
| LinkTags.RemoveTagAppend | src/javascripts/app.js:951-955 | removal acts on each part of a tag list independently |
| LinkTags.LinkEffect | src/javascripts/app.js:946-974 | after linking, the id is reported; a new id is reported last and a known one changes nothing |
| LinkTags.UnlinkEffect | src/javascripts/app.js:951-974 | after unlinking, the id is no longer reported and every other id keeps its status |
| LinkTags.UnlinkUndoesLink | src/javascripts/app.js:946-955 | unlinking an id that was not linked before undoes its link exactly |
| Bridge.ReplaceVm | src/javascripts/app.js:58-60 | the stored view model reads back as the replacement |
| Bridge.SetMember | src/javascripts/app.js:66-70 | the assigned key reads back with its new value and every other key is unchanged |
| Bridge.AssignMembersLookup | src/javascripts/app.js:66-70 | after `Object.assign`, a key reads the last value the partial object gives it, otherwise its old value |
| Bridge.AssignThenGet | src/javascripts/app.js:66-77 | after assigning one key, `getVm` finds the new value there and the old value under any other key |
| Bridge.RemoveCharAppend | src/javascripts/app.js:37-45 | stripping `]` from a path acts on each part independently |
| Bridge.PlainPath | src/javascripts/app.js:37-45 | a path without brackets is a single member lookup |
| Bridge.BracketPath | src/javascripts/app.js:37-45 | `a[b]` looks up member `a` and then member `b` |
| Envelope.SetMessageArg | src/javascripts/modal.js:89-91 | the slot holds a document exactly when the value is defined; `undefined` leaves unparsable text |
| Envelope.SidebarGetMessageArg | src/javascripts/app.js:48-52 | the sidebar's read empties the slot, returns the stored document and fails only on unparsable text |
| Envelope.ModalGetMessageArg | src/javascripts/modal.js:78-88 | the modal's read empties the slot, never fails, and a non-null result is the stored document |
| Envelope.MessageRoundTrip | src/javascripts/modal.js:78-91 | a defined value written is read back unchanged by either frame; `undefined` reads as `null` in the modal and as a parse failure in the sidebar |
| Envelope.SingleSlot | src/javascripts/modal.js:78-91 | a second read of the same message finds the slot empty |
| Envelope.DecodeCall | src/javascripts/app.js:466-474 | a request decodes exactly when it is a string or a list; a string is an action with no arguments |
| Envelope.StringWrapsIntoList | src/javascripts/app.js:469-471 | a bare action name means the same as a one-element list |
| Envelope.ErrorEnvelope | src/javascripts/app.js:475-477 | a thrown error becomes an object whose `err` member is the error's message |
| Envelope.SidebarServe | src/javascripts/app.js:465-480 | the sidebar responds unless the request slot is unparsable, and otherwise leaves the slot empty |
| Envelope.SidebarReply | src/javascripts/app.js:468-478 | a request that is neither a string nor a list is answered with the `TypeError` envelope |
| Envelope.OnSidebarResponse | src/javascripts/modal.js:194-200 | the promise is rejected exactly when the response carries a truthy `err`, with that message; otherwise it resolves to the response |
| Envelope.ModalServe | src/javascripts/modal.js:176-183 | the modal responds exactly when the request decodes (a string or a list) and its handler returns, and then the slot holds the returned value's encoding; `null`, numbers, booleans and objects, a missing handler and a throwing one get no reply and leave the slot empty |
| Envelope.ServeFramesCompared | src/javascripts/modal.js:176-183 | for a decodable request both frames store the same reply when the handler returns; otherwise the sidebar replies with an error object and the modal stays silent; an empty or unparsable slot is never served by the modal |
| Envelope.Exchange | src/javascripts/modal.js:201-214 | a request that cannot be encoded gets no response |
| Envelope.ExchangeReturns | src/javascripts/modal.js:194-214 | a handler's defined result reaches the modal's response handler unchanged; no result resolves the promise to `null` |
| Envelope.ExchangeThrows | src/javascripts/app.js:465-480 | a handler that throws a non-empty message rejects the modal's promise with it; an empty message resolves it with `{err: ""}` |
| Envelope.ExchangeMissingAction | src/javascripts/app.js:472-477 | an action the sidebar does not define rejects the modal's promise with the `TypeError` message |
| Sidebar.IdsJson | src/javascripts/app.js:962-974 | the id list is sent as a JSON array of the same strings in the same order |
| Sidebar.Act | src/javascripts/app.js:266-294 | exactly the six named actions are handled; only `setDirty` sets the dirty flag; link and unlink change the tags as the tag codec says; `getLinkedWorkItemIds` answers with the linked ids; a failed `ajax` throws an `Error` whose message is `String(responseJSON.message)`, or `""` when that is undefined |
| Sidebar.ErrorText | src/javascripts/app.js:269-272 | the message of `new Error(m)`: `""` for `undefined`, the string itself for a string, `"null"` for `null` |
| Sidebar.AjaxThrown | src/javascripts/app.js:269-272 | a failed ajax call always throws a string message: the coerced server message, or the `TypeError` text when there is no `responseJSON` |
| Sidebar.Call | src/javascripts/modal.js:201-214 | a round trip through the slot never refreshes, and an unencodable request changes nothing |
| Sidebar.OnModalClosed | src/javascripts/app.js:324-329 | closing clears the dirty flag and refreshes exactly once if it was set; a clean close changes nothing |
| Sidebar.CloseIdempotent | src/javascripts/app.js:324-329 | a second close does nothing more |
| Sidebar.ModalLinkTicket | src/javascripts/modal.js:761-763 | linking from the modal resolves with no value and the id is then reported, with every earlier id kept |
| Sidebar.ModalUnlinkTicket | src/javascripts/modal.js:764-766 | unlinking from the modal resolves and the id is no longer reported while every other id keeps its status |
| Sidebar.ModalGetLinkedIds | src/javascripts/modal.js:686-688 | the modal receives the sidebar's linked ids and the sidebar state is unchanged |
| Sidebar.LinkThenListed | src/javascripts/modal.js:682-688 | after a link from the modal, the modal's "already linked" check finds the id |
| Sidebar.SetDirtyThenClose | src/javascripts/modal.js:690-692 | `setDirty` followed by closing the modal refreshes the sidebar exactly once, and closing again adds nothing |
| Sidebar.CleanCloseNoRefresh | src/javascripts/app.js:324-329 | without `setDirty`, closing the modal after any request does not refresh |
| Sidebar.UnknownActionRejected | src/javascripts/app.js:472-477 | an undefined action rejects with the `TypeError` message and changes nothing |
| Sidebar.AjaxFailureRejects | src/javascripts/app.js:266-273 | a failed ajax call rejects the modal's promise with the coerced message when it is non-empty, resolves it with `{err: ""}` when the message is empty or undefined, rejects with the `TypeError` text without `responseJSON`, and changes nothing |
| WorkItems.MarkersDistinct | src/javascripts/app.js:102-103 | link and attachment markers never collide, and each determines its ticket id |
| WorkItems.RenderPath | src/javascripts/modal.js:779-825 | every rendered JSON Pointer starts with `/` |
| WorkItems.PathRoundTrip | src/javascripts/modal.js:820-825 | every rendered patch path parses back to the same path |
| WorkItems.ApplyOp | src/javascripts/modal.js:431-446 | a successful `test` leaves the item unchanged, and no operation changes its id or revision |
| WorkItems.ApplyPatch | src/javascripts/modal.js:431-446 | a successful patch never changes the item's id or revision |
| WorkItems.ApplyPatchAppend | src/javascripts/modal.js:431-446 | applying two patches joined is applying one after the other, stopping at the first failure |
| WorkItems.ReplaceNewlines | src/javascripts/modal.js:767-772 | the HTML form of a text has no newline and is never shorter |
| WorkItems.NewlinesRoundTrip | src/javascripts/modal.js:767-772 | for text with no `<`, turning `<br>` back into newlines restores the original |
| WorkItems.FindField | src/javascripts/modal.js:826-831 | a field is found exactly when one with that reference name exists, and the result is one of them |
| WorkItems.IsHtmlContentField | src/javascripts/modal.js:832-841 | true exactly when the first field with that reference name has type `html` or `history`, in any letter case |
| WorkItems.FieldPatch | src/javascripts/modal.js:767-778 | an `add` of `/fields/<name>`; HTML fields get newline-free text that converts back, other fields get the text unchanged |
| WorkItems.FieldPatchApplies | src/javascripts/modal.js:767-778 | the field patch applies and sets the named field (to the value itself when it has no newline); other fields, relations and revision are unchanged |
| WorkItems.Hyperlink | src/javascripts/modal.js:779-792 | a `Hyperlink` relation with the given name, carrying a comment exactly when one is given |
| WorkItems.HyperlinkPatch | src/javascripts/modal.js:779-792 | an `add` at `/relations/-` of that relation |
| WorkItems.HyperlinkPatchAppends | src/javascripts/modal.js:779-792 | applying it appends exactly that relation |
| WorkItems.AttachmentPatches | src/javascripts/modal.js:793-804 | one `add` at `/relations/-` per attachment, in order, each a `Hyperlink` relation to the attachment's URL, named with the ticket's attachment marker and commented with the file name |
| WorkItems.AppendOpsApply | src/javascripts/modal.js:793-804 | a patch of `add` operations at `/relations/-` appends its relations, all of them and in order |
| WorkItems.AttachmentPatchesAppend | src/javascripts/modal.js:793-804 | applying them appends the attachment relations in attachment order |
| WorkItems.RemovePatch | src/javascripts/modal.js:820-825 | a `remove` whose path parses as the relation at that position |
| WorkItems.OpJson | src/javascripts/modal.js:779-792 | the wire form carries the operation name under the given key and the rendered path |
| WorkItems.LegacyHyperlinkOperation | app.js:1088-1098 | the legacy wire form names the operation under `operation`, not `op`, at `/relations/-` |
| WorkItems.HyperlinkWireForms | app.js:1088-1098 | both apps' hyperlink operations add at the same path; the current one names the operation under `op` and carries the marker under attribute `name` only, the legacy one carries it under `Name` only |
| LinkReconciler.MatchIndices | src/javascripts/modal.js:404-417 | the increasing list of exactly the positions of this ticket's markers |
| LinkReconciler.Kept | src/javascripts/modal.js:404-417 | exactly the relations that are not this ticket's markers |
| LinkReconciler.UnlinkPositions | src/javascripts/modal.js:404-417 | positions are non-decreasing and each lies within the list left after all removals |
| LinkReconciler.PositionsShift | src/javascripts/modal.js:404-417 | each recorded position is the marker's index minus the markers before it |
| LinkReconciler.KeptCount | src/javascripts/modal.js:404-417 | kept relations plus removals account for every relation |
| LinkReconciler.RemovalsDeleteExactlyMarkers | src/javascripts/modal.js:404-446 | removing at the recorded positions in turn deletes exactly this ticket's markers and keeps the rest in order |
| LinkReconciler.RemovePatches | src/javascripts/modal.js:438-443 | one `remove` per recorded position, in order |
| LinkReconciler.ApplyRemovePatches | src/javascripts/modal.js:438-446 | applying the removals performs the removals in turn |
| LinkReconciler.UnlinkPatch | src/javascripts/modal.js:428-444 | no patch exactly when no marker matches; otherwise a revision test plus one removal per marker |
| LinkReconciler.UnlinkPatchApplies | src/javascripts/modal.js:428-447 | on the fetched revision the unlink patch leaves exactly the non-marker relations |
| LinkReconciler.UnlinkPatchStale | src/javascripts/modal.js:431-436 | on any other revision the patch fails its test and changes nothing |
| LinkReconciler.UnlinkPositionsExample | src/javascripts/modal.js:404-417 | markers at indices 2, 5 and 7 are removed at positions 2, 4 and 5 |
| LinkReconciler.RemovePathsExample | src/javascripts/modal.js:820-825 | those removals are sent as `/relations/2`, `/relations/4` and `/relations/5` |
| LinkReconciler.LegacyLinksToRemove | app.js:689-718 | the legacy app selects exactly the relations that match under its `Name` key, in order |
| LinkReconciler.LegacySelectionAgrees | app.js:689-718 | under one shared attribute key, it selects as many relations as the modal removes; the two apps' actual keys differ (see `MarkerKeyMismatch`) |
| LinkReconciler.MarkerKeyMismatch | app.js:629-660 | a link written by the modal is not recognised by the legacy app's matcher |
| LinkReconciler.CanonicalId | src/javascripts/modal.js:467-473 | the canonical form of a numeric input is all digits and has the same value |
| LinkReconciler.ValidateLink | src/javascripts/modal.js:467-473 | rejects non-numeric input, and rejects a number whose canonical form is already linked |
| LinkReconciler.ValidateLinkAsWritten | src/javascripts/modal.js:467-473 | as written: rejects non-numeric input, and rejects only when the raw text is already linked |
| LinkReconciler.LeadingZeroPassesValidation | src/javascripts/modal.js:467-473 | `007` passes the check as written although work item 7 is linked |
| LinkReconciler.FindTicketLink | src/javascripts/modal.js:477-487 | a link is found exactly when some relation is this ticket's hyperlink, and it is one of them |
| LinkReconciler.FindTicketLinkAsWritten | src/javascripts/modal.js:477-487 | as written, the async predicate finds the first relation of any non-empty list |
| LinkReconciler.PlanLink | src/javascripts/modal.js:477-504 | only tags when this ticket's hyperlink exists; otherwise a patch that appends exactly that hyperlink |
| LinkReconciler.PlanLinkAsWritten | src/javascripts/modal.js:477-504 | as written, the patch is skipped whenever the work item has any relation |
| LinkReconciler.AsyncFindSkipsPatch | src/javascripts/modal.js:477-487 | an item whose only relation is unrelated gets no hyperlink as written, but gets one when corrected |
| LinkReconciler.LegacyPlanLink | app.js:629-660 | the legacy app skips the patch exactly when its matcher finds this ticket's link, otherwise sends the legacy operation |
| LinkReconciler.LinkFlow | src/javascripts/modal.js:462-521 | corrected (Findings rows 1, 3 and 5): rejected exactly when validation fails; a failure only when a patch was sent; when linked, the ticket gains the canonical id's tag |
| LinkReconciler.LinkFlowRefused | src/javascripts/modal.js:500-511 | corrected (Findings row 5): when the work item has no marker and the server refuses the patch, the link fails with the server's message and the ticket is not tagged, for every message including the empty one |
| LinkReconciler.LinkFlowTagOnlyIgnoresServer | src/javascripts/modal.js:498-500 | when the work item already carries the marker, no patch is sent, the server's answer does not matter, and the ticket is tagged |
| LinkReconciler.LinkFlowAsWritten | src/javascripts/modal.js:462-521 | as written: rejected exactly when the raw-text check fails; it fails only for a work item with no relations; when linked, the ticket gains the tag of the raw text |
| LinkReconciler.AsWrittenRefused | src/javascripts/modal.js:500-511 | as written, a refusal with a non-empty message makes the link fail without tagging |
| LinkReconciler.EmptyRefusalTagsWithoutMarker | src/javascripts/modal.js:194-199 | as written, a refusal with an empty message tags the ticket and leaves the work item without a marker; corrected, the link fails |
| LinkReconciler.AsWrittenFlowLeavesNoMarker | src/javascripts/modal.js:477-504 | on a work item with relations but no marker for the ticket, the flow as written tags the ticket and leaves the work item without a marker; the corrected flow appends one |
| LinkReconciler.LinkFlowEffect | src/javascripts/modal.js:462-521 | corrected: when the server accepts, a valid link succeeds, the canonical id is then reported, and the work item keeps its relations, gains at most one, and carries this ticket's hyperlink |
| LinkReconciler.UnlinkFlow | src/javascripts/modal.js:395-460 | a successful unlink removes the item's tag; a failure happens only when a patch was sent |
| LinkReconciler.UnlinkFlowEffect | src/javascripts/modal.js:395-460 | on an unchanged work item, unlinking succeeds, removes the tag and leaves only non-marker relations |
| LinkReconciler.UnlinkFlowStale | src/javascripts/modal.js:428-451 | if the work item changed since it was fetched, the unlink fails and the tag stays |
| LinkReconciler.LeadingZeroLinkSurvivesUnlink | src/javascripts/modal.js:420-490 | as written, linking `007` and then unlinking work item 7 leaves `007` linked |
| LinkReconciler.LinkThenUnlinkRestoresTags | src/javascripts/modal.js:420-490 | corrected: linking a new id and then unlinking that work item restores the tags exactly |
| Urls.HostedUrl | src/javascripts/app.js:1065-1074 | a bare account name becomes an `https://` URL ending in `/DefaultCollection` |
| Urls.DropTrailingSlash | src/javascripts/app.js:1076 | one trailing slash is dropped, otherwise the text is unchanged |
| Urls.BuildAccountUrl | src/javascripts/app.js:1065-1083 | the result extends the normalised setting; `/DefaultCollection` is added exactly when the last `/` of the normalised setting is at index 8 (the length of `https://`) or earlier; that holds for every setting without a path and for short ones with a path such as `http://a/b` |
| Urls.BareAccountName | src/javascripts/app.js:1065-1074 | a setting without a scheme is the hosted account name |
| Urls.HostOnlyGetsCollection | src/javascripts/app.js:1075-1083 | a scheme and host, with or without a trailing slash, get `/DefaultCollection` |
| Urls.CollectionPathKept | src/javascripts/app.js:1075-1083 | a setting that already names a collection path is kept as given |
| Urls.DropLeadingSlash | src/javascripts/app.js:846-859 | one leading slash is dropped, otherwise the text is unchanged |
| Urls.Params | src/javascripts/app.js:846-859 | one `name=value` piece per parameter, in order |
| Urls.VsoUrl | src/javascripts/app.js:846-859 | the URL is the account URL, one `/`, and the relative path; without parameters nothing follows |
| Urls.LegacyVsoUrl | app.js:928-946 | the legacy URL starts from the normalised account setting |
| Urls.LegacyAgrees | app.js:928-946 | for a setting that names a collection, the legacy URL equals the current one |
| Urls.NoQuery | src/javascripts/app.js:846-859 | without parameters the URL carries no query string |
| Urls.QueryRoundTrip | src/javascripts/app.js:846-859 | with plain parameters, splitting the URL at `?`, `&` and `=` recovers the path and every name and value |
| Urls.ResourceName | src/javascripts/app.js:884-887 | a resource name exists exactly when the URL contains `/_apis/`, and it contains no `/` |
| Urls.ResourceVersion | src/javascripts/app.js:884-887 | a version exists exactly when a resource does; it is never empty and defaults to `1.0` |
| Urls.ResourceOfRestUrl | src/javascripts/app.js:884-887 | the resource is the path segment after `/_apis/`, and with the empty version table the version is `1.0` |
| Sorting.SortBy | src/javascripts/modal.js:903-905 | the result is sorted by the key and is a permutation of the input |
| Sorting.SortByStable | src/javascripts/modal.js:903-905 | elements with equal keys keep their input order |
| ProjectMetadata.AreaPath | src/javascripts/modal.js:887-889 | a child's path is its parent's path, `\` and its name; a root's path is its name |
| ProjectMetadata.FlattenArea | src/javascripts/modal.js:887-900 | one entry per area in the tree, the area's own entry first, every entry below it prefixed by its path |
| ProjectMetadata.FlattenForest | src/javascripts/modal.js:895-899 | one entry per area in the children, each under the parent's path |
| ProjectMetadata.FlattenAreas | src/javascripts/modal.js:885-905 | one entry per area, sorted by path, a permutation of the pre-order flattening |
| ProjectMetadata.RootFirst | src/javascripts/modal.js:887-900 | the root comes first under its bare name and every other area lies under it |
| ProjectMetadata.ChildPaths | src/javascripts/modal.js:895-899 | each child's entry is named by its parent's path, `\` and the child's name |
| ProjectMetadata.ForestAppend | src/javascripts/modal.js:895-899 | flattening two lists of children joined is flattening each in turn |
| ProjectMetadata.SameAreaPathKeepsOrder | src/javascripts/modal.js:903-905 | areas with the same path keep their pre-order order after sorting |
| ProjectMetadata.AreaExample | src/javascripts/modal.js:885-905 | a tree `P{A{X},B}` flattens to `P`, `P\A`, `P\A\X`, `P\B` |
| ProjectMetadata.RestrictToAllowed | src/javascripts/app.js:1036-1040 | exactly the work item types whose name is on the allow-list |
| ProjectMetadata.RestrictAppend | src/javascripts/app.js:1036-1040 | filtering keeps order and acts on each part of the list independently |
| ProjectMetadata.RestrictAllowedUnchanged | src/javascripts/app.js:1036-1040 | a list of allowed types is returned unchanged |
| ProjectMetadata.RestrictIdempotent | src/javascripts/modal.js:980-984 | restricting twice is restricting once |
| ProjectMetadata.LegacyHasFieldDefined | app.js:1010-1016 | fails exactly when the type has no field template, otherwise tells whether the field is in it |
| ProjectMetadata.ProcessTemplateName | app.js:1135-1146 | Scrum if a Product Backlog Item type exists, else CMMI if Change Request, else Agile if User Story, else an error |
| ProjectMetadata.ProcessTemplateIgnoresOthers | app.js:1135-1146 | adding a type that is none of the three marker types does not change the answer |
| ProjectMetadata.IncludeFields | app.js:30-80 | rules exist exactly for the Scrum, Agile and CMMI processes |
| ProjectMetadata.CollectFields | app.js:1100-1118 | fails exactly when there are rules but no template; otherwise one field per rule whose field is defined, in rule order |
| ProjectMetadata.AutomaticFields | app.js:1100-1118 | an unknown process is an error, otherwise the process's rules for the type are collected |
| ProjectMetadata.UnlistedTypeNeedsNoTemplate | app.js:1100-1118 | a type without rules gets no automatic fields, even without a template |
| ProjectMetadata.MsfBugFields | app.js:41-45 | an Agile bug gets `State` and `Reason` as fixed texts and `ActivatedBy` as the user's name |
| ProjectMetadata.QueryResultIds | src/javascripts/modal.js:568-576 | link queries yield their relation targets; flat queries yield their work items |
| ProjectMetadata.IdTexts | src/javascripts/modal.js:577-582 | each id is rendered as its decimal text, in order |
| ProjectMetadata.PlanQueryFetch | src/javascripts/modal.js:577-582 | no fetch exactly when the query returned no ids |
| ProjectMetadata.IdListRoundTrip | src/javascripts/modal.js:582 | splitting the fetched id list at `,` gives the first 200 ids, each parsing back to its number |
| ProjectCache.FindProject | src/javascripts/modal.js:916-926 | the first project with the id, or none exactly when no project has it |
| ProjectCache.Checkout | src/javascripts/modal.js:916-926 | a lease exists exactly when the project does; it holds a copy of the list positioned at that project |
| ProjectCache.Edit | src/javascripts/modal.js:916-926 | editing the leased project changes that entry only |
| ProjectCache.Release | src/javascripts/modal.js:922-925 | releasing writes the lease's copy back as the shared list |
| ProjectCache.ReleaseUnedited | src/javascripts/modal.js:916-926 | releasing an unedited lease leaves the shared list unchanged |
| ProjectCache.LostUpdate | src/javascripts/modal.js:916-926 | of two leases taken together, the one released last overwrites the other's edit |
| ProjectCache.LoadMetadata | src/javascripts/modal.js:874-909 | an unknown project is an error; requests are sent exactly when the metadata is not loaded yet; a failure leaves the list unchanged, so only a load whose requests both succeed changes it |
| ProjectCache.LoadMetadataEffect | src/javascripts/modal.js:874-909 | a first load stores the allowed types and the sorted flattened areas, marks the project loaded and touches no other project |
| ProjectCache.LoadMetadataOnce | src/javascripts/modal.js:877-879 | a second load sends no request and changes nothing |
| ProjectCache.LoadQueries | src/javascripts/modal.js:705-717 | an unknown project is an error; cached queries are reused unless a reload is asked for |
| ProjectCache.QueriesCached | src/javascripts/modal.js:705-717 | a successful fetch stores the project's queries; loading again without reload then sends no request, and a reload fetches again |
| ProjectCache.RunQuery | src/javascripts/modal.js:568-585 | the query result is requested first; an empty result shows nothing and sends no second request; a second request fetches the id list; the count shown is the number of ids; an error shows nothing |
| ProjectCache.RunQueryAsWritten | src/javascripts/modal.js:564-567 | as written, the query is requested under the project name of the release function, not the project |
| ProjectCache.RunQueryFixed | src/javascripts/modal.js:564-567 | corrected: an unknown project is an error, otherwise the query runs in the project's name |
| ProjectCache.QueryUrl | src/javascripts/app.js:231-233 | the query result URL is scoped by the project name |
| ProjectCache.QueryScopeLost | src/javascripts/modal.js:564-567 | as written the request names the empty project; corrected it names the project |
| ProjectCache.AsWrittenQueryUrl | src/javascripts/modal.js:564-567 | as written the URL has an empty project segment |
| ProjectCache.SidebarLoadMetadata | src/javascripts/app.js:978-1020 | the sidebar's loader sends the same requests but never writes the shared list |
| ProjectCache.SidebarLoadForgets | src/javascripts/app.js:978-1020 | after the sidebar's load the project is still unloaded; after the modal's it is loaded |
| ProjectCache.SidebarLoadQueries | src/javascripts/app.js:1021-1035 | the sidebar's query loader sends the modal's requests but never writes the shared list |
| ProjectCache.LegacyLoadTypes | app.js:1045-1054 | an unknown project id fails with a `TypeError` and changes nothing; otherwise only the project's entry can change, and only on a first successful load: it gains the allowed types and is marked loaded; a request is sent exactly when it was not loaded, and the load fails exactly when that request fails |
| ProjectCache.LegacyLoadQueries | app.js:1066-1074 | an unknown project id fails with a `TypeError` and changes nothing; otherwise only the project's entry can change, and only when it had no queries and the fetch succeeded; a request is sent exactly when it had none, and the load fails exactly when that request fails |
| ProjectCache.LegacyLoadTypesOnce | app.js:1045-1054 | a second legacy load sends no request and changes nothing |
| ProjectCache.LegacyLoadQueriesOnce | app.js:1066-1074 | after a successful legacy query load the project holds queries, and a second load sends no request and changes nothing |
| ProjectList.MergePage | src/javascripts/app.js:356-373 | the stored projects plus the page's, sorted case-insensitively by name |
| ProjectList.MergePageStable | src/javascripts/app.js:356-373 | projects with equal names keep arrival order: stored ones first, then the page's |
| ProjectList.MergePages | src/javascripts/app.js:356-373 | after any successful page the list is sorted |
| ProjectList.MergePagesContents | src/javascripts/app.js:356-373 | the merged list holds exactly the stored projects and every received one |
| ProjectList.MergePagesSorted | src/javascripts/app.js:356-373 | once a page has been merged, or if the stored list was sorted, the result is sorted |
| ProjectList.LoadAllProjects | src/javascripts/app.js:507-529 | request `p` skips `100·p`; paging continues exactly while pages are full and stops on a short page or a failure; the list holds every received project and is sorted |

## Left out

- HTTP, authentication, i18n texts, DOM drawing and the Zendesk client itself are left out. Server responses are parameters: the link patch's refusal, the unlink's current work item, the pages and the metadata responses.
- Failure to fetch the work item before linking or unlinking (`errCannotGetWorkItem`) is left out. The flows start from the fetched work item.
- LinkReconciler.UnlinkFlow: a failed unlink patch always counts as a failure. The model carries no server message for it, so the empty-message case of Findings row 5 (the modal would resolve, untag and close) is not modelled for unlinking.
- `mergeVm` (lodash deep merge) is left out. It is not used by the modelled flows.
- Promise timing and concurrency are left out. Each exchange is one atomic step, so two queries in flight at once are not modelled. The `setDirty` call the modal does not await is ordered before the close.
- Failures of the host's tag requests, and the `ajax` tag calls in `linkTicket`/`unlinkTicket` that are not awaited, are left out. Tag changes always succeed in the model.
- `execActionOnModal`, the modal's `action_init*` screens, `onGetVsoProjectsWithTwaDone`, the legacy query run and `loadWorkItemTemplate` are left out. They only draw or fetch data the model already takes as input.
- The legacy app's `resourceLinks` and multi-item update are left out.
- Strings.Lower: lowercases ASCII letters only. JavaScript's `toLowerCase` also maps other letters.
- Strings.StrLe: compares characters as Dafny characters. JavaScript compares UTF-16 code units, which differs outside the basic plane.
- ProjectMetadata.IdList: takes the first 200 ids, as `_.first(ids, 200)` does in lodash before version 4. The lodash version is not pinned in the modelled files, and lodash 4's `_.first` ignores the count and takes one id.
- Urls.ResourceVersion: uses a map lookup. The source's object lookup would also find inherited prototype properties such as `constructor`.
- ProjectMetadata.IncludeFields: is the same kind of lookup by process and type name, and does not model inherited properties either.
- JSON objects are member lists. Key order is kept only as far as the modelled lookups observe it.
- Envelope.TypeErrorMessage: is one fixed text. The engine's actual `TypeError` message depends on the browser.
- ProjectList.Fresh: also gives a new project empty areas, no queries and an unloaded flag. The source stores only `id`, `name` and empty `workItemTypes`. Every read of the missing members behaves the same.
- JSON Patch is modelled only for the operations the app sends (`add`, `remove`, `test`) on fields, relations and `/rev`.

## Findings

| source | as written | input that shows it | evidently intended | confidence | as-written member | corrected member |
|---|---|---|---|---|---|---|
| src/javascripts/modal.js:477-487 | `_.find` is given an `async` predicate. Its Promise result is always truthy, so the first relation of any work item counts as "already linked". | a work item whose only relation is an unrelated artifact link | append the ticket's hyperlink unless one with this ticket's name exists | high; not executed | LinkReconciler.PlanLinkAsWritten, LinkReconciler.AsyncFindSkipsPatch, LinkReconciler.LinkFlowAsWritten, LinkReconciler.AsWrittenFlowLeavesNoMarker | LinkReconciler.PlanLink, LinkReconciler.LinkFlow, LinkReconciler.LinkFlowEffect |
| src/javascripts/modal.js:564-567 | `getProjectById` returns `[proj, done]` but is destructured as `[done, proj]`, so `proj.name` is the release function's name, the empty string | any query run from the link dialog | run the query under the chosen project's name | high; not executed | ProjectCache.RunQueryAsWritten, ProjectCache.AsWrittenQueryUrl | ProjectCache.RunQueryFixed, ProjectCache.QueryScopeLost |
| src/javascripts/modal.js:467-490 | The raw input text is both checked and written as the tag, while unlinking writes the work item's numeric id | input `007` while work item 7 is linked: it passes the check; after linking `007`, unlinking work item 7 leaves `007` | one canonical id for checking, tagging and unlinking | medium; not executed | LinkReconciler.ValidateLinkAsWritten, LinkReconciler.LeadingZeroPassesValidation, LinkReconciler.LeadingZeroLinkSurvivesUnlink | LinkReconciler.ValidateLink, LinkReconciler.LinkThenUnlinkRestoresTags |
| src/javascripts/app.js:978-1035 | the sidebar's metadata and query loaders take a project copy and never write it back | a project whose metadata the sidebar loads: it stays unloaded and is fetched again | store the loaded metadata as the modal's loader does | low (the sidebar may never reach these loaders); not executed | ProjectCache.SidebarLoadMetadata, ProjectCache.SidebarLoadForgets | ProjectCache.LoadMetadata, ProjectCache.LoadMetadataOnce |
| src/javascripts/modal.js:194-199 | `onSidebarResponse` rejects only when `response.err` is truthy. A failed request whose server message is empty or missing becomes `{err: ""}` in the sidebar (app.js:271, 475-477) and resolves, so the caller carries on as if it had succeeded. | the server refuses the link patch with a JSON body whose `message` is `""` or absent: the ticket is tagged but the work item gets no marker | every failed request rejects the modal's promise | medium; not executed | LinkReconciler.LinkFlowAsWritten, LinkReconciler.EmptyRefusalTagsWithoutMarker, Sidebar.AjaxFailureRejects | LinkReconciler.LinkFlow, LinkReconciler.LinkFlowRefused |
