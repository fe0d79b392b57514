# MemoLink client core in Dafny

MemoLink is a photo-memory app. A user keeps memories (a title, a description, an image,
tags, an optional date and a position on a graph) and connections between them. The
browser client holds both collections in a React context and changes them optimistically.
Each change is applied at once, then either committed with the server's answer or
rolled back. Around that store sit:

- the album view (search, tag filter, sort, 12-per-page paging, tag editing, neighbours);
- the graph view (two-click connect mode, select-then-confirm delete);
- the new-memory form (validation, unsaved-changes guard, discard dialog);
- the dashboard (free-tier quota, recent memories, preview grid);
- the four account forms (sign-up, login, forgot and reset password), each with its own
  order of checks;
- the API client's record mappers;
- two helpers of the Python backend: a dictionary key rename and the login decision.

This project models that core and proves properties of it.

- Each source file is one module. `MemoryContext.MemoryStore` is a class with `seq`
  fields. Every asynchronous operation is split into a *begin* method (the optimistic
  step) and *commit*/*fail* methods (one server outcome each). A composed method runs the
  whole operation for a given outcome.
- The page components (`LoginPage`, `SignupPage`, `ResetPasswordPage`,
  `ForgotPasswordPage`, `MemoryForm`, `AlbumView`, `GraphView`, `DashboardView`) are
  classes whose fields are the component's state variables.
- A page's calls to the store, the router and the API are recorded in an `effects`
  sequence, or go straight to the store's methods.
- The pure rules are functions. Lemmas relate them to independent statements of what
  they mean.

Shared modules:

- `Text` models the JavaScript string built-ins used: `trim` with the `\s` class,
  `toLowerCase` (ASCII letters only; see "## Left out"), `includes`, `split(' ')`,
  `parseInt` and decimal `toString`.
- `Lists` holds subsequences, `filter` and de-duplication.
- `Types` holds the records.
- `Sorting` holds the comparators and a stable insertion sort in place of
  `Array.prototype.sort`.
- `TagEditing` holds the add/remove tag rule that the album and the form share.
- `MemorySync` holds the pure collection transforms that the store applies.
- `Auth` holds the effects and error texts the account forms share.

These are parameters of the model:

- clock readings (`Date.now()`, `new Date()`), `Math.random()` and the token decoder;
- every server response, as a `Result`;
- the password verifier and token issuer of the backend.

## Model

| member | source | states |
|---|---|---|
| MemorySync.CacheKeyShape | src/context/MemoryContext.tsx:23-36 | the cache key is the bare `memolink_data` exactly when there is no non-empty token or it does not decode; otherwise it is `memolink_data_` followed by the token's `sub`, or by `user` when `sub` is falsy |
| MemorySync.NewMemory | src/context/MemoryContext.tsx:172-178 | a new memory carries the given id and timestamp, every field of the draft, and `tags` defaulted to `[]` when the draft has none |
| MemorySync.ReplaceById | src/context/MemoryContext.tsx:192 | the list keeps its length; each item whose id matches is replaced and every other item stays in place |
| MemorySync.RemoveById | src/context/MemoryContext.tsx:196 | the result is a subsequence holding exactly the items with another id; the id no longer occurs |
| MemorySync.MergeById | src/context/MemoryContext.tsx:217-219 | only items with the matching id are shallow-merged with the update; the rest are untouched and the length is kept |
| MemorySync.SetPosition | src/context/MemoryContext.tsx:273-275 | only the matching items get the new position; every other field and item is unchanged |
| MemorySync.ReplaceConnectionById | src/context/MemoryContext.tsx:319 | the connection with the temporary id is replaced by the server's; the others stay in place |
| MemorySync.RemoveConnectionById | src/context/MemoryContext.tsx:352 | the result is a subsequence holding exactly the connections with another id |
| MemorySync.RemoveTouching | src/context/MemoryContext.tsx:250 | the result is a subsequence holding exactly the connections whose source and target both differ from the id |
| MemorySync.Connect | src/context/MemoryContext.tsx:303-313 | an existing pair in either direction leaves the list unchanged, otherwise one connection is appended; afterwards the pair exists both ways, and unique unordered pairs stay unique |
| MemorySync.ConnectBothWaysOnce | src/context/MemoryContext.tsx:304-311 | connecting b to a after a to b adds nothing: the duplicate check is undirected |
| MemorySync.RollbackAppend | src/context/MemoryContext.tsx:196 | removing the fresh temporary memory after a failed create gives back exactly the list before the append |
| MemorySync.CommitAppend | src/context/MemoryContext.tsx:192 | replacing the fresh temporary memory by the server's is the same as appending the server's memory to the old list |
| MemorySync.AppendKeepsUniqueIds | src/context/MemoryContext.tsx:179 | appending a memory with a fresh id keeps ids unique |
| MemorySync.RemoveKeepsUniqueIds | src/context/MemoryContext.tsx:196 | removal keeps ids unique |
| MemorySync.ReplaceKeepsUniqueIds | src/context/MemoryContext.tsx:226 | a replacement that keeps the id or brings a fresh one keeps ids unique |
| MemorySync.MergeKeepsUniqueIds | src/context/MemoryContext.tsx:218 | a merge that sets no id already used by another memory keeps ids unique |
| MemorySync.SetPositionKeepsIds | src/context/MemoryContext.tsx:273-275 | moving a node changes no id, so unique ids stay unique |
| MemorySync.SetPositionIdempotent | src/context/MemoryContext.tsx:285-287 | applying the position write twice, as the offline branch does, equals applying it once |
| MemorySync.DeleteKeepsClosedGraph | src/context/MemoryContext.tsx:249-250 | the cascading delete leaves every remaining connection between two remaining memories |
| MemorySync.DeleteWithoutCascadeDangles | src/context/MemoryContext.tsx:249-250 | a counterexample: dropping one of two connected memories without its connections leaves a dangling connection, so the cascade is needed |
| MemorySync.DeleteConnectionKeepsClosedGraph | src/context/MemoryContext.tsx:352 | removing connections keeps every connection's ends present |
| MemorySync.AppendKeepsUniquePairs | src/context/MemoryContext.tsx:313 | appending a connection whose pair is absent in both directions keeps unordered pairs unique |
| MemorySync.AppendKeepsUniquePairsIfUnique | src/context/MemoryContext.tsx:333-342 | the offline append, guarded by the same check, keeps unordered pairs unique |
| MemorySync.AppendedPairExists | src/context/MemoryContext.tsx:313 | after the append the pair is found in both directions |
| MemorySync.RemoveKeepsUniqueConnections | src/context/MemoryContext.tsx:352 | removing connections keeps pairs and connection ids unique |
| MemorySync.AppendKeepsUniqueConnectionIds | src/context/MemoryContext.tsx:313 | appending a connection with a fresh id keeps connection ids unique |
| MemorySync.ReplaceKeepsUniqueConnectionIds | src/context/MemoryContext.tsx:319 | replacing the temporary connection by one with the same or a fresh id keeps connection ids unique |
| MemorySync.RollbackAppendConnection | src/context/MemoryContext.tsx:323 | removing the fresh temporary connection restores the list before the append |
| MemorySync.CommitAppendConnection | src/context/MemoryContext.tsx:319 | replacing the fresh temporary connection equals appending the server's connection |
| MemorySync.ReplaceKeepsUniquePairs | src/context/MemoryContext.tsx:319 | a server connection joining the same pair as the one it replaces keeps pairs unique |
| MemorySync.DeleteKeepsInvariants | src/context/MemoryContext.tsx:249-250 | the cascading delete keeps unique ids, unique pairs, unique connection ids and a closed graph |
| MemoryContext.CachedState | src/context/MemoryContext.tsx:40-80 | a missing or unreadable cache entry yields no memories, no connections and light mode |
| MemoryContext.CacheRoundTrip | src/context/MemoryContext.tsx:148-156 | a state written under a key reads back unchanged from that key |
| MemoryContext.MemoryStore.constructor | src/context/MemoryContext.tsx:40-80 | the store starts from what the cache holds under the current key |
| MemoryContext.MemoryStore.PersistCache | src/context/MemoryContext.tsx:148-156 | with a session, the current state is written under the current key; without one the cache is untouched |
| MemoryContext.MemoryStore.BeginAddMemory | src/context/MemoryContext.tsx:167-208 | exactly one memory is appended, with id `temp-<now>` under a session and `<now>` offline; earlier items keep their order; a fresh id keeps ids unique |
| MemoryContext.MemoryStore.CommitAddMemory | src/context/MemoryContext.tsx:192 | only the item with the temporary id becomes the server's memory |
| MemoryContext.MemoryStore.FailAddMemory | src/context/MemoryContext.tsx:196-197 | the item with the temporary id is removed and ids stay unique |
| MemoryContext.MemoryStore.AddMemory | src/context/MemoryContext.tsx:167-209 | with a fresh temporary id, success appends the server's memory and failure restores the list and passes the error on; offline the new memory stays |
| MemoryContext.MemoryStore.BeginUpdateMemory | src/context/MemoryContext.tsx:214-219 | the snapshot is the list before the call, and only the matching item is merged |
| MemoryContext.MemoryStore.CommitUpdateMemory | src/context/MemoryContext.tsx:225-227 | the matching item becomes the server's memory |
| MemoryContext.MemoryStore.FailUpdateMemory | src/context/MemoryContext.tsx:231-232 | the list is restored to the snapshot verbatim, not merged |
| MemoryContext.MemoryStore.UpdateMemory | src/context/MemoryContext.tsx:211-240 | success keeps the server's memory, failure restores the old list and passes the error on, and offline the merge stays |
| MemoryContext.MemoryStore.BeginDeleteMemory | src/context/MemoryContext.tsx:245-250 | the memory and every connection touching it go, the snapshot holds both old lists, and the invariants and closed graph are kept |
| MemoryContext.MemoryStore.FailDeleteMemory | src/context/MemoryContext.tsx:258-260 | both lists are restored to the snapshot |
| MemoryContext.MemoryStore.DeleteMemory | src/context/MemoryContext.tsx:242-267 | failure under a session restores both lists; success or offline leaves the cascading delete |
| MemoryContext.MemoryStore.UpdateMemoryPosition | src/context/MemoryContext.tsx:269-289 | only the matching position changes, and it is never rolled back |
| MemoryContext.MemoryStore.BeginAddConnection | src/context/MemoryContext.tsx:291-313 | the undirected duplicate check decides whether one connection is appended; a temporary id is returned only under a session and only when appended; with a fresh id the store stays valid |
| MemoryContext.MemoryStore.CommitAddConnection | src/context/MemoryContext.tsx:319 | the temporary connection becomes the server's; when the server's id is the same or fresh and it joins the same pair, the store stays valid |
| MemoryContext.MemoryStore.FailAddConnection | src/context/MemoryContext.tsx:323 | the temporary connection is removed and pairs and ids stay unique |
| MemoryContext.MemoryStore.AddConnection | src/context/MemoryContext.tsx:291-344 | an existing pair changes nothing; otherwise success appends the server's connection, failure restores the list, and offline appends `connection-<now>-<nonce>`; with fresh ids and a server edge for the same pair the store stays valid |
| MemoryContext.MemoryStore.BeginDeleteConnection | src/context/MemoryContext.tsx:349-352 | the connections with the id go, the snapshot is the old list, the invariants are kept |
| MemoryContext.MemoryStore.FailDeleteConnection | src/context/MemoryContext.tsx:360 | the list is restored to the snapshot |
| MemoryContext.MemoryStore.DeleteConnection | src/context/MemoryContext.tsx:346-367 | failure under a session restores the list; otherwise exactly the connections with the id are gone |
| MemoryContext.MemoryStore.ToggleDarkMode | src/context/MemoryContext.tsx:369-371 | the theme flag flips and nothing else changes |
| MemoryContext.MemoryStore.ClearAllData | src/context/MemoryContext.tsx:373-381 | both lists are emptied and both the per-user key and the legacy key leave the cache |
| MemoryContext.MemoryStore.ClearAllDataAndBackUp | src/context/MemoryContext.tsx:148-156 | `clearAllData` followed by the backup effect: while a token is stored, the user's entry is written back holding empty lists and the current theme, so the next start reads an empty store; without one both entries stay removed |
| Types.StringOr | src/services/api.ts:227-230 | `v \|\| d` on an optional string: the value when present and non-empty, the default otherwise |
| Types.IntOr | src/pages/Dashboard.tsx:19 | `v \|\| d` on an optional number: the value when present and non-zero, the default otherwise |
| Types.FlagOr | src/pages/Dashboard.tsx:18 | `v \|\| false` is true exactly when the flag is present and true |
| Types.Merge | src/context/MemoryContext.tsx:218 | `{...m, ...updates}`: every field present in the update, the id included, wins; every absent field keeps the memory's value; an empty update changes nothing |
| Types.MergeOverrides | src/context/MemoryContext.tsx:218 | spreading the same update twice equals spreading it once, and an update carrying every field of another memory yields that memory |
| Album.FilterMemories | src/pages/Album.tsx:147-156 | a memory is shown exactly when the lower-cased query occurs in its lower-cased title, description or a tag, and no tag or a tag it carries is selected; the result is a subsequence |
| Album.EmptyQueryShowsAll | src/pages/Album.tsx:147-156 | with an empty query and no tag every memory is shown, in order |
| Album.SortedAndFiltered | src/pages/Album.tsx:145-175 | the displayed list is a permutation of the filtered list, sorted by the chosen option |
| Album.UnrecognisedSortKeepsOrder | src/pages/Album.tsx:169-170 | an unknown sort option keeps the filtered order |
| Album.TotalPages | src/pages/Album.tsx:183 | the page count is the ceiling of n/12, and zero exactly for an empty list |
| Album.SliceIndex | src/pages/Album.tsx:186 | `slice` clamps an index into the list's bounds and leaves an in-range index alone |
| Album.PageInRange | src/pages/Album.tsx:184-186 | page p shows indices `(p-1)*12` up to the next multiple of 12 or the end, 1 to 12 items |
| Album.PageBeyondEnd | src/pages/Album.tsx:184-186 | a page past the last one shows nothing |
| Album.FirstPagesPrefix | src/pages/Album.tsx:184-186 | the first k pages together are the first `min(12k, n)` items |
| Album.PagesPartition | src/pages/Album.tsx:183-186 | pages 1 to the page count concatenate back to the whole list |
| Album.PrevPage | src/pages/Album.tsx:315 | Previous gives `p-1` above page 1 and is clamped to 1 at or below it |
| Album.NextPage | src/pages/Album.tsx:363 | Next gives `p+1` below the last page and is clamped to `totalPages` at or above it |
| Album.NavigationStaysInRange | src/pages/Album.tsx:315-363 | from a page in range, Previous and Next stay in range |
| Album.NearbyPages | src/pages/Album.tsx:333-340 | the numbered buttons are exactly the pages within distance 2 of the current one, ascending |
| Album.PageButtonsReachEnds | src/pages/Album.tsx:326-354 | the first and the last page always have a button, and the buttons are ascending |
| Album.PageButtonsInRange | src/pages/Album.tsx:326-354 | every button names an existing page |
| Album.FlatTags | src/pages/Album.tsx:127 | the flattened tags are exactly the tags some memory carries |
| Album.AllTags | src/pages/Album.tsx:127 | the tag bar lists each tag carried by some memory exactly once |
| Album.FindIndex | src/pages/Album.tsx:62 | `findIndex` gives the first matching position or -1 when none matches |
| Album.Find | src/pages/Album.tsx:44 | `find` succeeds exactly when the id occurs, and returns the first memory with it |
| Album.Outgoing | src/pages/Album.tsx:131-134 | outgoing neighbours are the memories that are targets of connections from the id; unknown targets are dropped |
| Album.Incoming | src/pages/Album.tsx:136-139 | incoming neighbours are the memories that are sources of connections to the id; unknown sources are dropped |
| Album.ConnectedMemoriesIff | src/pages/Album.tsx:130-142 | with unique ids, a memory is an outgoing (incoming) neighbour exactly when a connection leads from (to) the id to (from) it |
| Album.FindUnique | src/pages/Album.tsx:44 | with unique ids, looking up a memory's id finds that memory |
| Album.Stored | src/pages/Album.tsx:44 | looking up the id of a stored memory succeeds, and with unique ids finds that very memory |
| Album.AlbumView.constructor | src/pages/Album.tsx:7-18 | the view starts with no selection, newest-first order and page 1 |
| Album.AlbumView.OpenMemory | src/pages/Album.tsx:43-52 | a known id is selected and its title, description and tags are copied into the edit fields in view mode; an unknown id changes nothing |
| Album.AlbumView.NextMemory | src/pages/Album.tsx:61-66 | below the last visible position, the next visible memory is selected and the stored memory with its id is loaded into the edit form in view mode (with unique ids, that memory itself); at the last one, the selection and the edit form stay; the controls and page never change |
| Album.AlbumView.PrevMemory | src/pages/Album.tsx:68-73 | above the first visible position, the previous visible memory is selected and loaded into the edit form in view mode (with unique ids, that memory itself); at the first one or for a selection not visible, the selection and the edit form stay; the controls and page never change |
| Album.AlbumView.AddEditTag | src/pages/Album.tsx:100-105 | the edit tags follow the shared add rule and stay free of duplicates |
| Album.AlbumView.RemoveEditTag | src/pages/Album.tsx:107-109 | the edit tags follow the shared remove rule |
| Album.AlbumView.SetFilters | src/pages/Album.tsx:177-180 | the three controls take the new values; the page returns to 1 only when one of them changes, and is kept otherwise |
| Album.AlbumView.GoToFirstPage | src/pages/Album.tsx:303 | the page becomes 1; the controls, the selection and the whole edit form are unchanged |
| Album.AlbumView.GoToPrevPage | src/pages/Album.tsx:315 | the page becomes `max(1, p-1)`; the controls, the selection and the whole edit form are unchanged |
| Album.AlbumView.GoToNextPage | src/pages/Album.tsx:363 | the page becomes `min(totalPages, p+1)` and stays in range; the controls, the selection and the whole edit form are unchanged |
| Album.AlbumView.GoToLastPage | src/pages/Album.tsx:374 | the page becomes the page count; the controls, the selection and the whole edit form are unchanged |
| Album.AlbumView.GoToPage | src/pages/Album.tsx:345 | clicking a numbered button goes to that page, which is in range; the controls, the selection and the whole edit form are unchanged |
| Sorting.ParseSortOption | src/pages/Album.tsx:160-171 | only the four option strings select an order; anything else is unrecognised |
| Sorting.LexCompare | src/pages/Album.tsx:166 | the title comparison is three-valued and zero exactly for equal titles |
| Sorting.LexCompareAntisymmetric | src/pages/Album.tsx:166-168 | swapping the titles negates the comparison |
| Sorting.LexCompareTransitive | src/pages/Album.tsx:166 | the title order is transitive |
| Sorting.CompareAntisymmetric | src/pages/Album.tsx:159-172 | every option's comparator is antisymmetric |
| Sorting.CompareTransitive | src/pages/Album.tsx:159-172 | every option's order is transitive |
| Sorting.ReverseOptions | src/pages/Album.tsx:161-168 | `title-za` is the reverse of `title-az`, and `date-newest` of `date-oldest` |
| Sorting.SortBy | src/pages/Album.tsx:159 | sorting is a permutation |
| Sorting.InsertSorted | src/pages/Album.tsx:159-172 | inserting into a sorted list keeps it sorted |
| Sorting.SortBySorted | src/pages/Album.tsx:159-172 | the sorted list is ordered by the option: ascending dates for oldest-first, descending for newest-first, by title for the title options |
| Sorting.UnrecognisedKeepsOrder | src/pages/Album.tsx:169-170 | a comparator that always answers 0 keeps the order |
| TagEditing.AddTag | src/pages/Album.tsx:100-105 | the trimmed input is appended and the input cleared exactly when it is non-empty and absent; otherwise nothing changes; the list stays duplicate-free and trimmed |
| TagEditing.RemoveTag | src/pages/Album.tsx:107-109 | the tag is gone, every other tag keeps its count and order, and the list stays duplicate-free and trimmed |
| TagEditing.AppendKeeps | src/components/MemoryModal.tsx:102-103 | appending a trimmed, absent tag keeps the list duplicate-free and trimmed |
| MemoryGraph.SelectedIds | src/pages/MemoryGraph.tsx:121-122 | the recorded ids are exactly those of the selected items, and empty exactly when nothing is selected |
| MemoryGraph.WithoutConnections | src/pages/MemoryGraph.tsx:137 | deleting each recorded edge leaves exactly the connections with an unrecorded id |
| MemoryGraph.WithoutMemories | src/pages/MemoryGraph.tsx:138 | deleting each recorded node leaves exactly the memories with an unrecorded id |
| MemoryGraph.WithoutTouching | src/pages/MemoryGraph.tsx:138 | the node deletes' cascade leaves exactly the connections touching no recorded node |
| MemoryGraph.DeleteAllKeepsClosedGraph | src/pages/MemoryGraph.tsx:135-142 | deleting the recorded edges and then nodes leaves every connection between remaining memories |
| MemoryGraph.DeleteMessageNamesCounts | src/pages/MemoryGraph.tsx:449-461 | the dialog names the memory count first and the connection count last, joined by " and " only when both are present |
| MemoryGraph.DeleteMessageCountReadsBack | src/pages/MemoryGraph.tsx:455-457 | the number right after the question is the memory count as written in decimal |
| MemoryGraph.GraphView.constructor | src/pages/MemoryGraph.tsx:25-30 | the graph starts outside connect mode with nothing pending, selected or marked for deletion |
| MemoryGraph.GraphView.NodeClick | src/pages/MemoryGraph.tsx:101-118 | in connect mode the first click records the node; the second connects it to a different node (never to itself) and leaves connect mode; outside connect mode the click only selects |
| MemoryGraph.GraphView.ToggleConnectMode | src/pages/MemoryGraph.tsx:214-217 | the button flips connect mode and always clears the pending node |
| MemoryGraph.GraphView.HandleDelete | src/pages/MemoryGraph.tsx:120-133 | with nothing selected nothing changes; otherwise exactly the selected ids are recorded and the dialog opens |
| MemoryGraph.GraphView.ConfirmDelete | src/pages/MemoryGraph.tsx:135-142 | every recorded edge, then every recorded node with its connections, is deleted, and the target is cleared |
| MemoryGraph.GraphView.CancelDelete | src/pages/MemoryGraph.tsx:144-147 | cancelling clears the target and the dialog and deletes nothing |
| MemoryModal.SubmitCheck | src/components/MemoryModal.tsx:112-120 | a blank title is rejected first, then a missing image; both present pass |
| MemoryModal.DraftOf | src/components/MemoryModal.tsx:122-132 | the draft carries the trimmed title and description, the image, the tags and the position, and has no date exactly when the date field is empty |
| MemoryModal.SubmittedMemoryShape | src/components/MemoryModal.tsx:122-131 | a created memory has the form's trimmed title, which is not blank, the form's trimmed description, an image and the form's tags |
| MemoryModal.SubmittableIsUnsaved | src/components/MemoryModal.tsx:144-146 | a form that would pass the checks always counts as unsaved |
| MemoryModal.UnsavedIgnoresNewTag | src/components/MemoryModal.tsx:144-146 | the reset form is not unsaved, and a typed but unadded tag does not count |
| MemoryModal.MemoryForm.constructor | src/components/MemoryModal.tsx:12-21 | the form starts empty, with no camera, dialog or pending action |
| MemoryModal.MemoryForm.SetContent | src/components/MemoryModal.tsx:135-140 | the six form fields take the given values and nothing else changes |
| MemoryModal.MemoryForm.ChooseImage | src/components/MemoryModal.tsx:26-35 | a chosen file becomes the image; no file changes nothing |
| MemoryModal.MemoryForm.StartCamera | src/components/MemoryModal.tsx:37-62 | granted access shows the camera; a refusal is reported and changes nothing |
| MemoryModal.MemoryForm.StopCamera | src/components/MemoryModal.tsx:64-70 | the camera is hidden and the fields stay |
| MemoryModal.MemoryForm.CapturePhoto | src/components/MemoryModal.tsx:72-99 | a captured frame becomes the image and stops the camera; no frame changes nothing |
| MemoryModal.MemoryForm.AddTag | src/components/MemoryModal.tsx:101-106 | the tags follow the shared add rule and stay duplicate-free and trimmed |
| MemoryModal.MemoryForm.RemoveTag | src/components/MemoryModal.tsx:108-110 | the tags follow the shared remove rule and no other field changes |
| MemoryModal.MemoryForm.Submit | src/components/MemoryModal.tsx:112-142 | a failed check alerts and changes nothing; otherwise exactly one memory built from the trimmed form is added to the store, the form resets and closes |
| MemoryModal.MemoryForm.Cancel | src/components/MemoryModal.tsx:166-180 | unsaved input opens the dialog with a pending cancel and keeps the fields; otherwise the form resets, stops the camera and closes |
| MemoryModal.MemoryForm.OverlayClick | src/components/MemoryModal.tsx:182-189 | unsaved input opens the dialog with a pending close; otherwise the form closes without resetting |
| MemoryModal.MemoryForm.ConfirmDiscard | src/components/MemoryModal.tsx:148-159 | every field resets, the camera stops, the dialog and pending action clear and the form closes |
| MemoryModal.MemoryForm.CancelDiscard | src/components/MemoryModal.tsx:161-164 | only the dialog and the pending action clear |
| Dashboard.AtLimitMonotone | src/pages/Dashboard.tsx:63 | a premium user is never at the limit, and a user at the limit stays there as memories are added |
| Dashboard.DefaultQuota | src/pages/Dashboard.tsx:18-19 | with no or zero limit and no premium flag, the limit is reached at 30 memories |
| Dashboard.RecentMemories | src/pages/Dashboard.tsx:66-68 | the recent list has `min(4, n)` items |
| Dashboard.RecentMemoriesSpec | src/pages/Dashboard.tsx:66-68 | the recent memories come from the list, newest first, and none left out is newer than one shown |
| Dashboard.SplitNewest | src/pages/Dashboard.tsx:66-68 | in a newest-first list, the first k are ordered and none after them is newer |
| Dashboard.PreviewNodes | src/pages/Dashboard.tsx:103 | the preview shows the first `min(10, n)` memories |
| Dashboard.PreviewLayout | src/pages/Dashboard.tsx:108-109 | the ten preview slots lie within 10–85% left and 20–80% top, and no two share a place |
| Dashboard.Statistics | src/pages/Dashboard.tsx:125-129 | the statistics are the number of memories and of connections |
| Dashboard.DashboardView.constructor | src/pages/Dashboard.tsx:17-19 | the cached user's flag and limit are read with the false and 30 defaults |
| Dashboard.DashboardView.CheckPremiumStatus | src/pages/Dashboard.tsx:23-31 | a fetched user sets the flag and limit with the same defaults; a failure keeps them |
| Dashboard.DashboardView.AddMemoryClick | src/pages/Dashboard.tsx:35-42 | at the limit the premium modal opens; otherwise the memory modal opens |
| Dashboard.DashboardView.Upgrade | src/pages/Dashboard.tsx:44-61 | a successful upgrade sets premium and closes the premium modal; a failure changes nothing |
| Dashboard.DashboardView.CloseModal | src/pages/Dashboard.tsx:140 | closing the memory modal changes nothing else |
| Dashboard.DashboardView.ClosePremiumModal | src/pages/Dashboard.tsx:143 | closing the premium modal changes nothing else |
| Auth.ErrorText | src/pages/Signup.tsx:43 | `detail \|\| fallback`: the server's non-empty detail, otherwise the page's default text |
| Auth.ThrownErrorShowsFallback | src/pages/ResetPassword.tsx:60 | an error without a response shows the default text |
| Signup.FirstError | src/pages/Signup.tsx:21-34 | blank fields, then a mismatch, then an untrimmed password under 8 characters; the form passes exactly when none applies |
| Signup.BlankPasswordIsUnfilled | src/pages/Signup.tsx:21-24 | a white-space password is caught as a blank field, never by the length check |
| Signup.AcceptedEffectsOrder | src/pages/Signup.tsx:38-41 | the data is cleared before registering with the trimmed name and email; the reload and then the move to the dashboard follow exactly on success |
| Signup.SignupPage.constructor | src/pages/Signup.tsx:10-15 | the form starts empty and idle |
| Signup.SignupPage.Submit | src/pages/Signup.tsx:17-47 | a failed check sets its error and calls nothing; otherwise the store is cleared, the ordered effects are recorded, the error is the server's detail or the default, and loading ends false |
| Signup.SignupPage.Accept | src/pages/Signup.tsx:36-46 | the steps after the checks: store cleared, effects recorded, error set on failure, loading false |
| Login.FirstError | src/pages/Login.tsx:19-22 | the form passes exactly when both fields hold more than white space |
| Login.AcceptedEffectsOrder | src/pages/Login.tsx:26-29 | clearing precedes the login, which precedes the reload and then the move to the dashboard, the last two only on success |
| Login.LoginPage.constructor | src/pages/Login.tsx:10-13 | the form starts empty and idle |
| Login.LoginPage.Submit | src/pages/Login.tsx:15-35 | a blank field sets its error and calls nothing; otherwise the store is cleared, the ordered effects are recorded, and the error is empty, the server's detail or the default; loading ends false |
| Login.LoginPage.Accept | src/pages/Login.tsx:24-34 | the steps after the checks: store cleared, effects recorded, error set on failure, loading false |
| ResetPassword.FirstError | src/pages/ResetPassword.tsx:33-51 | blank fields, then a password under 8, then a mismatch, then a missing token; passes exactly when none applies |
| ResetPassword.OrderDiffersFromSignup | src/pages/ResetPassword.tsx:38-46 | a short, mismatched password is a mismatch on sign-up but too short here |
| ResetPassword.StrengthOf | src/pages/ResetPassword.tsx:146-150 | no bar exactly for an empty password |
| ResetPassword.StrengthBands | src/pages/ResetPassword.tsx:146-150 | weak below 8, medium from 8 to 11, strong from 12; a longer password is never weaker |
| ResetPassword.WeakBarMeansTooShort | src/pages/ResetPassword.tsx:148 | for filled fields, a weak bar is exactly the case the length check rejects |
| ResetPassword.IndicatorsPredictSubmit | src/pages/ResetPassword.tsx:167-177 | the two indicators never show together; with a token, "Passwords match" shows exactly when the submit would pass |
| ResetPassword.ScreenOf | src/pages/ResetPassword.tsx:67-89 | unknown token state shows the spinner, a rejected token the invalid-link card, an accepted one the form |
| ResetPassword.AcceptedEffectsOrder | src/pages/ResetPassword.tsx:55-58 | the reset is requested with the link's token; the alert and then the move to login follow exactly on success |
| ResetPassword.ResetPasswordPage.constructor | src/pages/ResetPassword.tsx:9-14 | the page starts empty, idle and with the token state unknown |
| ResetPassword.ResetPasswordPage.ValidateToken | src/pages/ResetPassword.tsx:16-26 | a missing or empty token is rejected with its message; any other is accepted |
| ResetPassword.ResetPasswordPage.Submit | src/pages/ResetPassword.tsx:28-65 | a failed check sets its error only; otherwise the reset is requested, and a failure shows the detail or default, marks the token invalid and so shows the invalid-link card; loading ends false |
| ResetPassword.ResetPasswordPage.Accept | src/pages/ResetPassword.tsx:53-64 | the steps after the checks: request recorded, failure marks the token invalid, loading false |
| ResetPassword.ResetPasswordPage.SubmitToClient | src/pages/ResetPassword.tsx:55-62 | since the client always throws, every submit that passes the checks ends on the invalid-link card with the default text |
| ForgotPassword.ValidEmailMatchesPattern | src/pages/ForgotPassword.tsx:24-25 | the page's string test accepts exactly the addresses matched by `^[^\s@]+@[^\s@]+\.[^\s@]+$` |
| ForgotPassword.ValidEmailHasPattern | src/pages/ForgotPassword.tsx:24 | an accepted address splits as the pattern demands |
| ForgotPassword.PatternIsValidEmail | src/pages/ForgotPassword.tsx:24 | an address the pattern matches is accepted |
| ForgotPassword.ValidEmailShape | src/pages/ForgotPassword.tsx:24-28 | an accepted address has one `@` and is not blank, and surrounding white space makes it fail |
| ForgotPassword.SingleAt | src/pages/ForgotPassword.tsx:24 | an accepted address has no `@` besides the first |
| ForgotPassword.ValidIsNotBlank | src/pages/ForgotPassword.tsx:18-25 | an accepted address is never caught by the emptiness check |
| ForgotPassword.FirstError | src/pages/ForgotPassword.tsx:18-28 | a blank address is reported first, then one the pattern rejects; passes exactly for accepted addresses |
| ForgotPassword.ForgotPasswordPage.constructor | src/pages/ForgotPassword.tsx:8-11 | the page starts empty and idle |
| ForgotPassword.ForgotPasswordPage.Submit | src/pages/ForgotPassword.tsx:13-45 | both notices clear first; a failed check sets its error; success shows the message and clears the field; failure shows the detail or default; loading ends false |
| ForgotPassword.ForgotPasswordPage.Accept | src/pages/ForgotPassword.tsx:30-44 | the steps after the checks: request recorded, message or error set, loading false |
| ForgotPassword.ForgotPasswordPage.SubmitToClient | src/pages/ForgotPassword.tsx:32-44 | since the client always throws, every valid address ends with the default failure text and no message |
| Api.RegisterRequest | src/services/api.ts:63-70 | the email and password are sent as given; `first_name` is the whole name when it has no space or starts with one, and otherwise the non-empty prefix up to the first space; a name without spaces sends an empty `surname` |
| Api.RegisterNameWords | src/services/api.ts:66-67 | `first_name` is the first space-separated word and `surname` the second or empty; further words are dropped |
| Api.LeadingSpaceName | src/services/api.ts:66-67 | for `" Ann"` the first word is empty, so `first_name` is `" Ann"` and `surname` is `"Ann"` |
| Api.UserNameCases | src/services/api.ts:137 | "User" when neither part is set, the one set part alone, and empty only when both are set and blank |
| Api.RegisteredNameReadsBack | src/services/api.ts:137 | a one- or two-word name sent at registration reads back as the same name |
| Api.UserFromRecord | src/services/api.ts:135-142 | id, email and creation time are copied; premium only for a true flag; the limit defaults to 30 when falsy |
| Api.ZeroLimitIsDefault | src/services/api.ts:141 | a limit of 0 is read as 30, as if absent |
| Api.ResetFlowUnavailable | src/services/api.ts:98-108 | both password-reset calls always fail without a server response |
| Api.PositionNeedsBothCoordinates | src/services/api.ts:207 | a position is read only when both coordinates are truthy, so a 0 coordinate falls back |
| Api.MappedMemoryShape | src/services/api.ts:198-299 | every mapped memory has a title and tags, and takes `node_id`, `title` and `created_at` from the record when set |
| Api.BareRecordKeepsRequest | src/services/api.ts:198-299 | from a record holding only an id, create falls back to the sent draft ("Untitled" when its title is empty) and update to the sent fields ("Memory" for no title) |
| Api.ImageDataOnlyWhenRead | src/services/api.ts:203-294 | list, get and create prefer `image_data`; update ignores it |
| Api.MemoriesFromList | src/services/api.ts:216-244 | one memory per node, in order; `totalCount` is `total_count` when truthy, else the number of nodes |
| Api.EnvelopeWithoutCountIsBare | src/services/api.ts:219-220 | an envelope without a truthy count reads like the bare array |
| Api.CreateNodeRequest | src/services/api.ts:179-186 | the title is never empty ("Untitled"), tags default to `[]`, the rest is sent as given |
| Api.UpdateRequest | src/services/api.ts:278-286 | `image_id` and `description` are sent as `''` when falsy; the other fields as given |
| Api.PositionUpdateSendsEmptyFields | src/services/api.ts:279-284 | a drag's position update also sends an empty image id and description |
| Api.CreatedConnectionAgreesWithList | src/services/api.ts:322-340 | a created connection reads like a listed one whose record holds the requested ends |
| Api.ConnectionsFromList | src/services/api.ts:333-340 | one connection per link, in order |
| Api.DeleteLinkParamOfIds | src/services/api.ts:347 | `parseInt` of a server id gives it back; a temporary or offline id gives NaN |
| Api.NotANumber | src/services/api.ts:347 | a string starting with a letter parses to NaN |
| Text.TrimEmptyIff | src/pages/Signup.tsx:21 | `!s.trim()` holds exactly for white-space-only strings |
| Text.TrimIdempotent | src/components/MemoryModal.tsx:123 | trimming twice equals trimming once |
| Text.ToLower | src/pages/Album.tsx:149 | lower-casing keeps the length and maps each character |
| Text.Contains | src/pages/Album.tsx:149 | `includes` holds exactly when the needle occurs at some position |
| Text.NatToString | src/context/MemoryContext.tsx:203 | the decimal rendering is non-empty and all digits |
| Text.ParseIntNatToString | src/services/api.ts:347 | `parseInt` reads a decimal rendering back to the number |
| Text.ParseIntOfDigits | src/services/api.ts:347 | an all-digit string parses to its decimal value |
| Text.Split | src/services/api.ts:66 | `split` yields at least one part, none holding the separator |
| Text.JoinSplit | src/services/api.ts:66-67 | joining the parts of a split gives back the string |
| Text.SplitJoin | src/services/api.ts:66-67 | splitting joined separator-free parts gives back the parts |
| Text.SplitFirst | src/services/api.ts:66 | the first part is the prefix up to the first separator |
| Text.SplitWithoutSeparator | src/services/api.ts:66 | a string without the separator splits into itself alone |
| Lists.Distinct | src/pages/Album.tsx:127 | `Array.from(new Set(...))` keeps each element once and loses none |
| Lists.FilterSpec | src/pages/Album.tsx:147 | `filter` keeps exactly the passing elements, with their counts, in order |
| UserServices.Assign | backend/app/services/user_services.py:16-18 | `d[k] = v` overwrites an existing key in place and appends a new one at the end |
| UserServices.MutateDict | backend/app/services/user_services.py:12-19 | the loop builds exactly the rename of the mapping |
| UserServices.MutateIsRename | backend/app/services/user_services.py:14-18 | when the new key does not collide, every prefix of the loop is the mapping with the old key renamed in its place |
| UserServices.MutateDropsOldKey | backend/app/services/user_services.py:14-18 | a different new key leaves the old key out of the result |
| UserServices.MutateDictSpec | backend/app/services/user_services.py:12-19 | the new key maps to the new value, the old key is gone, other keys keep values and order, and an absent old key returns the mapping unchanged |
| UserServices.MutateCollision | backend/app/services/user_services.py:14-18 | when the new key is already a key, the outcome depends on which of the two comes first |
| UserServices.InsertedRecordHidesPassword | backend/app/services/user_services.py:26-30 | the inserted record holds the names, the email and `password_hash` with the hash, and no `password` |
| UserServices.CreateUserResult | backend/app/services/user_services.py:30-39 | a failed insert passes its error on; otherwise the first returned row, or none when no row comes back |
| UserServices.LoginUser | backend/app/services/user_services.py:41-55 | the token is returned exactly when the first row's hash verifies; a query error, no row, or a mismatch (404) fail |
| UserServices.LoginUsesFirstRow | backend/app/services/user_services.py:44-45 | only the first matching row is consulted |

## Left out

- Network I/O: the axios instance, the bearer-token interceptor and the 401 redirect are
  not modelled. Every server answer is a parameter of the operation that awaits it.
- MemoryContext.MemoryStore.ClearAllData: states only `clearAllData`'s own body, and ends
  with the user's key absent. React runs the backup effect afterwards, and that effect
  comes as the separate method `PersistCache`. `ClearAllDataAndBackUp` states the
  composed result: with a token still stored, the user's key holds empty lists again.
- MemoryContext.MemoryStore: the other operations also leave the cache as it was.
  Running `PersistCache` after each change stands for the backup effect. Except in
  `ClearAllDataAndBackUp`, the model does not compose the two.
- `refreshData` and `loadFromLocalStorage` (the `Promise.all` fetch) are not modelled. The
  forms record a `RefreshData` effect in their place.
- `localStorage`, `JSON.parse` and `atob` are not modelled. The cache is a map from key to
  an optional stored state, and the token decoder is a function parameter.
- `setToken`, `clearAuth`, `logout`, `changePassword`, `updateProfile`, the image
  endpoints and `healthCheck` of the API client are not part of this model.
- Concurrency: each optimistic operation is one begin step followed by one outcome. The
  snapshot race between overlapping requests is not modelled.
- Clock readings and randomness (`Date.now()`, `new Date()`, `Math.random()`) are
  parameters. Timestamps are integers, and date-string parsing is not modelled.
- Floating-point coordinates are integers, since the rules only copy or compare them.
- Sorting.LexCompare: code-point order stands in for `localeCompare`.
- Text.ToLower: only the ASCII letters A–Z are lower-cased, while JavaScript's `toLowerCase`
  folds every Unicode capital. The model therefore misses matches that differ only in
  non-ASCII case, such as `Şehir` for the query `şehir`.
- Album.FilterMemories: it inherits the ASCII-only case folding of `Text.ToLower`, so its
  search is case-insensitive only for ASCII letters.
- Signup.FirstError: a length is a count of Unicode code points, not of UTF-16 code units
  as `.length` counts them. A password of three emoji has length 3 here but 6 in the
  source, so the model rejects it as too short where the source accepts it.
- ResetPassword.FirstError: the same code-point length is used for the 8-character minimum.
- ResetPassword.StrengthOf: the same code-point length decides the strength bands.
- `Array.prototype.sort` is a stable insertion sort over the same comparator.
- `loadMoreMemories`, `hasMore` and the scroll listener of the album are not modelled;
  the context defines no such members.
- Rendering, CSS and SVG are not modelled. Neither are fullscreen and zoom, or camera
  streams, `FileReader` and canvas drawing. The camera grant, the file and the captured
  frame are parameters.
- In the album popup, `closeMemory`, `handleEdit`, `handleSaveEdit`, `handleCancelEdit`
  and the delete dialog are not part of this model.
- The dashboard's navigation, toasts, cached-user write and page reload after an upgrade
  are not modelled.
- The reset-password page's rendering and its navigation buttons are not modelled, apart
  from the screen choice.
- Login.LoginPage.Submit: the error is cleared in the branch where the checks pass, not
  at the start. The final state is the same on every path, because a failed check
  overwrites the cleared error.
- Api: the record mappers are not wired into `MemoryContext`. The store takes server
  memories and connections as already mapped values.
- Api.MemoriesFromList: an envelope whose `nodes` field is missing makes the source throw,
  and that case is not modelled.
- Api.NodeId: an absent `id` is read as the empty string.
- Api: backend node and link ids are integers, but the model gives records string ids
  (`Option<string>`), the form the client uses after `String(...)`.
- Api.MappedMemoryShape: `created_at` is an optional timestamp, not a string.
- Password hashing, token issuing and the database are parameters: a verifier function, a
  token value and the insert or select result.
- UserServices.LoginUser: indexing an empty result raises `IndexError` in the source. The
  model names that outcome `NoSuchUser`.
- The service's debugging prints are not modelled.
