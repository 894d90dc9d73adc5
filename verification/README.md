# Tab Center Redux: the tab-list mirror, in Dafny

Tab Center Redux is a Firefox extension that shows a window's tabs as a
vertical list in the sidebar. Its core is the sidebar's **tab list**
(`src/sidebar/tablist.js`). It keeps a map from tab id to a `SideTab`
record and a document with two containers of tab views, one for pinned
tabs and one for the rest. Browser events (created, removed, moved,
activated, updated, attached, detached) come in one at a time, and the
list updates itself so that its views stay in the browser's tab-strip
order.

This project models that engine as pure functions over immutable data:

- The document is two sequences of tab ids, pinned then unpinned.
  Document order is the pinned container followed by the unpinned one.
- The sidebar code reads the views through `SideTab.getAllTabsViews()`,
  which only the older record defines. The model reads them in document
  order, as that definition does, and keeps the throwing calls in the
  members named `…AsWritten` (Findings row 5).
- Each handler returns a `Step(state, thrown)`. A handler that throws a
  JavaScript exception keeps the changes it made before the throw, as
  JavaScript does.
- Every browser request (`tabs.move`, `tabs.remove`, `tabs.create`) is an
  emitted `Browser.Request` value, not an effect.
- The browser window is a reference model, `Browser.HostWindow`. It holds
  the window id, the pinned ids, the unpinned ids and the active tab. Its
  tab strip is `Strip(h)`, pinned followed by unpinned. The `Mirrors`
  invariant says the list tracks exactly the window's tabs, with their
  pinned state and active mark, and that document order is strip order.

Modules, following the source files:

| module | file modelled |
|---|---|
| `Js` | the JavaScript values the code relies on: truthiness, `parseInt`, `includes`, `normalizeStr` |
| `Seqs` | sequence helpers: insert, remove, move, index of |
| `Dom` | the two containers, `appendChild`, `insertBefore`, `remove`, the `_setPos` reference rule, `isTabEvent` |
| `Browser` | the host window, its events, and the requests the extension sends |
| `SidebarTab` | `src/sidebar/tab.js`, the per-tab record and its static helpers |
| `SidebarTabList` | `src/sidebar/tablist.js`: tracking, positioning, activation, search, closing, compact mode |
| `SidebarDrop` | `src/sidebar/tablist.js`: drag and drop, moving a tab to the top or bottom of its group |
| `SidebarPopulate` | `src/sidebar/tablist.js`: `populate` |
| `SidebarSync` | the mirror invariant and its preservation by every event |
| `LegacyTab`, `LegacyTabList`, `LegacySync` | the older single-container `src/tab.js` and `src/tablist.js` |
| `TabContextMenu` | `src/sidebar/tabcontextmenu.js`, the tab's context menu |
| `ContextMenu` | `src/contextmenu.js`, the generic popup menu |
| `Background` | `src/background.js`, the set of windows with an open sidebar |
| `TabCenter` | `src/sidebar/tabcenter.js`: preferences, change sets, opening tabs, search |

## Model

| member | source | states |
|---|---|---|
| SidebarSync.HandleMirrors | src/sidebar/tablist.js:33-71 | With the corrected update handler (Findings row 1) and the views read in document order, as the older `getAllTabsViews` does (Findings row 5), every event the browser can deliver to a mirrored list is handled without an exception, and the list then mirrors the window the event leaves behind. |
| SidebarSync.RunMirrors | src/sidebar/tablist.js:33-71 | With the same two corrections, the mirror survives any run of valid events, by induction over the run, and no handler throws along the way. |
| SidebarSync.CreateMirrors | src/sidebar/tablist.js:458-469 | With the views read in document order, as the older `getAllTabsViews` does (Findings row 5), creating a tab of the window puts its view where the browser put the tab, and makes it active iff it is active. Tabs of other windows are ignored. |
| SidebarSync.RemoveMirrors | src/sidebar/tablist.js:487-498 | Removing a tab keeps the mirror of the window without it, for tracked and untracked ids alike. |
| SidebarSync.MoveMirrors | src/sidebar/tablist.js:86-91 | With the views read in document order, as the older `getAllTabsViews` does (Findings row 5), and the `toIndex+1` correction for forward moves, the insert-before rule puts the view where the browser moved the tab. |
| SidebarSync.PinMirrors | src/sidebar/tablist.js:528-536 | With the corrected update handler and the views read in document order, as the older `getAllTabsViews` does (Findings row 5), pinning appends the view to the pinned container, at the end of the pinned tabs, where the browser puts it. |
| SidebarSync.UnpinMirrors | src/sidebar/tablist.js:528-536 | With the corrected update handler and the views read in document order, as the older `getAllTabsViews` does (Findings row 5), unpinning appends the view to the unpinned container and then places it at the tab's index, the first unpinned position. |
| SidebarSync.ActivateMirrors | src/sidebar/tablist.js:470-480 | Activating a tab keeps the mirror and makes it the one active tab. |
| SidebarSync.ClearSearchMirrors | src/sidebar/tablist.js:325-334 | Clearing a search changes only which tabs are shown. |
| SidebarSync.UpdateAsWrittenDiverges | src/sidebar/tablist.js:92-102 | As written, every update of a tracked tab throws. When the update changes the pinned state, the list stops mirroring the window. |
| SidebarSync.CreateAsWrittenLosesView | src/sidebar/tablist.js:458-469 | As written, creating a tab of the window throws at `_setPos` after the tab is tracked: its view never reaches the document, and the list stops mirroring the window. The corrected handler keeps the mirror. |
| SidebarSync.MoveAsWrittenThrows | src/sidebar/tablist.js:86-91 | As written, moving a tab of the window throws and changes nothing. |
| SidebarSync.Unhidden | src/test/tabs-position.test.js:7-12 | The ids the tests expect in the document: exactly the ids not recorded as hidden, in their order, and never more of them. |
| SidebarSync.UnhiddenAppend | src/test/tabs-position.test.js:7-12 | Filtering out hidden ids distributes over concatenation, so the pinned and unpinned groups can be filtered apart. |
| SidebarSync.HiddenKeepsView | src/sidebar/tab.js:61-62 | Hiding a tab of a mirrored window records the flag, but its view stays in the document, so the document is not the unhidden tabs the tests expect. |
| SidebarSync.DetachHidden | src/test/tabs-position.test.js:7-12 | Corrected (Findings row 7): a view stays in the document iff it was there and its tab is not hidden. Nothing but the document changes. |
| SidebarSync.DetachHiddenMeetsTests | src/test/tabs-position.test.js:7-12 | With hidden views detached, a mirrored list's document is the window's unhidden tabs in strip order. A tracked tab has a view iff it is not hidden. |
| SidebarSync.HideDetachesView | src/sidebar/tablist.js:92-102 | Corrected (Findings row 7): after a tab is hidden, its view is gone and the document is the new window's unhidden tabs in strip order. |
| SidebarSync.GetPosMirrors | src/sidebar/tablist.js:499-506 | With the views read in document order, as the older `getAllTabsViews` does (Findings row 5), in a mirrored list `_getPos` of a tab is its index in the tab strip. |
| SidebarSync.TabCount | src/sidebar/tablist.js:495-496 | A mirrored list tracks exactly as many tabs as the window holds. |
| SidebarSync.DropInGroupMirrors | src/sidebar/tablist.js:255-295 | With the views read in document order, as the older `getAllTabsViews` does (Findings row 5), a tab dropped on another tab of its own group is moved to the drop target's index in the strip. |
| SidebarSync.DropAcrossGroupsMirrors | src/sidebar/tablist.js:255-295 | A tab dropped on a tab of the other group is moved to the boundary between the groups. |
| SidebarSync.CloseTabsUnderneathMirrors | src/sidebar/tablist.js:151-156 | With the views read in document order, as the older `getAllTabsViews` does (Findings row 5), "close tabs underneath" closes exactly the visible tabs after the tab in the strip. |
| SidebarSync.CloseAllTabsExceptMirrors | src/sidebar/tablist.js:157-162 | "Close other tabs" closes exactly the window's unpinned tabs other than the given one. |
| SidebarTabList.New | src/sidebar/tablist.js:13-30 | A new list is empty and unbound. It takes its compact settings from the preferences: `compactPins` by truthiness, and `compactModeMode` as a number or NaN. |
| SidebarTabList.NewCompactMode | src/sidebar/tablist.js:13-30 | A numeric mode preference is kept as it is. A missing one leaves the mode NaN. |
| SidebarTabList.OnPrefsChanged | src/sidebar/tablist.js:72-80 | Each compact preference in the change set takes its new value. A preference missing from the change set keeps its value, every other display field is unchanged, and so is the rest of the list. |
| SidebarTabList.GetPos | src/sidebar/tablist.js:499-506 | Corrected (Findings row 5): undefined iff the tab is untracked. Otherwise the index of its view in document order, or -1 iff the view is not in the document. |
| SidebarTabList.SetActive | src/sidebar/tablist.js:470-480 | An untracked id is a no-op. It throws iff the previously active id is no longer tracked, and then changes nothing. Otherwise the tab becomes active and nothing else in the list changes. |
| SidebarTabList.SetActiveMarks | src/sidebar/tablist.js:470-480 | Activation keeps at most one record marked active, because the old mark is cleared before the new one is set. |
| SidebarTabList.SetActiveKeeps | src/sidebar/tablist.js:475-479 | Activation changes nothing in any record except its active and "not selected since load" marks. |
| SidebarTabList.SetPos | src/sidebar/tablist.js:507-527 | Corrected (Findings rows 2 and 5): an untracked id is a no-op. Only the document changes, and a successful placement puts the view in the container of the tab's group. |
| SidebarTabList.GetPosAsWritten | src/sidebar/tablist.js:499-506 | As written, `_getPos` throws iff the tab is tracked, and is otherwise undefined as corrected. |
| SidebarTabList.SetPosAsWritten | src/sidebar/tablist.js:507-517 | As written, `_setPos` throws iff the tab is tracked, and changes nothing either way. |
| SidebarTabList.OnBrowserTabMovedAsWritten | src/sidebar/tablist.js:86-91 | As written, a move throws iff the tab is tracked and changes nothing. |
| SidebarTabList.CreateAsWritten | src/sidebar/tablist.js:458-469 | As written, a tab of the bound window is tracked, then the call throws a TypeError with the document unchanged. Other windows are ignored. |
| SidebarTabList.MovedTarget | src/sidebar/tablist.js:86-91 | The position handed to `_setPos` is `toIndex+1` for a forward move and `toIndex` otherwise. |
| SidebarTabList.OnBrowserTabMoved | src/sidebar/tablist.js:86-91 | An untracked id is a no-op, and a move changes only the document. |
| SidebarTabList.Track | src/sidebar/tablist.js:449-457 | `__create` stores an initialised record under the tab's id, adds exactly that key, and activates the tab iff it is active. |
| SidebarTabList.Create | src/sidebar/tablist.js:458-469 | A tab of another window is ignored. Otherwise the tab is tracked and, unless an exception was thrown, its view is in the document. |
| SidebarTabList.Remove | src/sidebar/tablist.js:487-498 | Exactly the id leaves the map and the other records stay the same. `_active` is cleared iff it names the tab. A tracked tab's view leaves the document, and an untracked id leaves the document alone. |
| SidebarTabList.OnTabPinned | src/sidebar/tablist.js:528-536 | The view ends up in the container of its new group, and only the document changes. |
| SidebarTabList.OnBrowserTabUpdatedAsWritten | src/sidebar/tablist.js:92-102 | As written, an update of a tracked tab of the window throws a TypeError, and the document and pinned state are left unchanged. |
| SidebarTabList.OnBrowserTabUpdated | src/sidebar/tablist.js:92-102 | With the tab passed on, the record takes the whole update. A change set without `pinned` leaves the document alone. Other windows and untracked tabs are no-ops. |
| SidebarTabList.Filter | src/sidebar/tablist.js:335-354 | A tab is visible iff its normalised title or url contains the normalised query. The search is active iff the query is non-empty, and the "more tabs" marker is set iff some tab is hidden. Nothing else changes. |
| SidebarTabList.FilterEmptyShowsAll | src/sidebar/tablist.js:335-354 | The empty query shows every tab and clears the marker and the active search. |
| SidebarTabList.FilterIdempotent | src/sidebar/tablist.js:335-354 | Filtering twice with the same query is filtering once. |
| SidebarTabList.ClearSearch | src/sidebar/tablist.js:325-334 | Only an active search is reset, and resetting it is filtering with the empty query. |
| SidebarTabList.ClearSearchShowsAll | src/sidebar/tablist.js:325-354 | Filtering leaves the list consistent, and clearing the search of a consistent list shows every tab. |
| SidebarTabList.VisibleIds | src/sidebar/tablist.js:154 | The ids kept are exactly the visible tracked ones. Reading an untracked id throws. |
| SidebarTabList.CloseTabsUnderneath | src/sidebar/tablist.js:151-156 | Corrected (Findings row 5): removes exactly the visible tabs whose views follow the tab's view. For an untracked tab, `slice(NaN)` starts at 0 and every visible tab is removed. |
| SidebarTabList.CloseTabsUnderneathAsWritten | src/sidebar/tablist.js:151-156 | As written, the call always throws a TypeError: at `_getPos` for a tracked tab, at the next line otherwise. |
| SidebarTabList.CloseAllTabsExcept | src/sidebar/tablist.js:157-162 | Removes every unpinned tracked tab except the given one, and nothing else. |
| SidebarTabList.MaybeShrinkTabs | src/sidebar/tablist.js:415-448 | Strict mode always shrinks and mode "off" never does. Only the shrink flag changes. |
| SidebarTabList.ShrinkHysteresis | src/sidebar/tablist.js:421-447 | In the dynamic mode, unshrunk tabs shrink iff no space is left, and shrunk tabs grow back iff the estimated height fits the wrapper. |
| SidebarTabList.EstimateMonotone | src/sidebar/tablist.js:432-446 | Hiding tabs never raises the estimated height. |
| SidebarTab.UpdateTitle | src/sidebar/tab.js:98-107 | The title is set. Attention is requested iff it was already requested, or there was a previous title, the new one differs, and the tab is inactive. |
| SidebarTab.ActivationClearsAttention | src/sidebar/tab.js:98-107 | An active tab never asks for attention on a title change. |
| SidebarTab.SetIcon | src/sidebar/tab.js:175-191 | The generic add-on icon is shown as the bundled image. The chrome-icon class is set iff the shown url is a `chrome://` svg. |
| SidebarTab.SetIconGeneric | src/sidebar/tab.js:175-184 | The generic icon shows as `img/extensions.svg`, without the chrome-icon class. |
| SidebarTab.SetIconIdempotent | src/sidebar/tab.js:175-191 | Setting the icon again to the image already shown changes nothing. |
| SidebarTab.ResetIcon | src/sidebar/tab.js:192-195 | The default icon, with the chrome-icon class. |
| SidebarTab.UpdateIcon | src/sidebar/tab.js:108-114 | A missing or empty url resets the icon, and any other url is set. |
| SidebarTab.UpdateLoading | src/sidebar/tab.js:126-138 | Starting a load records whether the tab was inactive. Finishing copies that record into the attribute. |
| SidebarTab.LoadCycle | src/sidebar/tab.js:126-138 | A load that starts and completes while unselected marks the tab iff it was inactive when the load began. |
| SidebarTab.UpdateActive | src/sidebar/tab.js:142-149 | Activation clears the attention and "not selected since load" marks. Deactivation changes only the active class. |
| SidebarTab.UpdateVisibility | src/sidebar/tab.js:171-174 | `visible` becomes `show`, and nothing else changes. |
| SidebarTab.UpdatePinned | src/sidebar/tab.js:196-199 | The pinned state is set, and nothing else changes. |
| SidebarTab.Init | src/sidebar/tab.js:13-42 | The record takes id, index, hidden, title, url, muted and pinned from the tab info. It is visible, inactive and not asking for attention. |
| SidebarTab.OnUpdate | src/sidebar/tab.js:60-94 | It throws iff `tab` is missing. In that case the pinned state, url, muted state, icon and loading flag are untouched. |
| SidebarTab.OnUpdateApplies | src/sidebar/tab.js:60-94 | Every key present in the change set is applied. |
| SidebarTab.OnUpdateKeeps | src/sidebar/tab.js:60-94 | A key missing from the change set leaves its field alone. |
| SidebarTab.OnUpdateIdempotent | src/sidebar/tab.js:60-94 | Delivering the same update twice is delivering it once. |
| SidebarTab.OnUpdateNoChange | src/sidebar/tab.js:60-94 | An empty change set only re-reads the icon. |
| SidebarTab.OnUpdateLoadMarks | src/sidebar/tab.js:84-90 | After "loading" the mark records the active class. After "complete" the attribute copies the mark. |
| SidebarTab.TabIdForView | src/sidebar/tab.js:284-289 | Null for a missing element, otherwise `parseInt` of `data-tab-id`. |
| SidebarTab.TabIdForViewOf | src/sidebar/tab.js:284-289 | The id written into a tab's view reads back as the tab's id. |
| SidebarTab.ClimbFrom | src/sidebar/tab.js:290-295 | The parsed id of the first node on the path whose parsed id is truthy, or null when there is none. |
| SidebarTab.TabIdForEvent | src/sidebar/tab.js:290-295 | The loop computes the climb. It throws iff the event has no target. |
| SidebarTab.TabIdForEventOnView | src/sidebar/tab.js:290-295 | An event on any part of a tab's view without its own id resolves to that tab. |
| Dom.IsTabEvent | src/sidebar/tab.js:259-277 | Strict: the target itself is a tab view. Non-strict: some node from the target up is a tab view. |
| Dom.HasTabAncestor | src/sidebar/tab.js:271-275 | True iff some ancestor is a tab view. |
| Dom.PositionAtPlaces | src/sidebar/tablist.js:507-527 | Whenever placing succeeds, the view is in the requested container. |
| Dom.PlaceNew | src/sidebar/tablist.js:507-527 | A new view placed at a flat position inside its container's range is inserted at that offset, and every other view keeps its order. |
| Dom.PlaceMoved | src/sidebar/tablist.js:507-527 | A view moved within its container to `to` (given `to+1` when moving forward) lands at `to`, and the others keep their order. |
| Dom.PositionAtAsWrittenAgrees | src/sidebar/tablist.js:522-526 | The code as written and the corrected rule agree at every position but 0. |
| Dom.PositionAtAsWrittenFront | src/sidebar/tablist.js:522-526 | As written, placing at 0 throws whenever the first view belongs to the other container. |
| Dom.CreatePinnedFirst | src/sidebar/tablist.js:522-526 | Concrete input: placing a new pinned view 7 at 0, as `_create` does, while only unpinned view 5 exists throws as written, and the corrected rule puts 7 first. |
| SidebarDrop.TabById | src/sidebar/tablist.js:384-386 | A record is found iff the id is a tracked number. |
| SidebarDrop.GroupIndexes | src/sidebar/tablist.js:309-324 | The query reports the strip indexes of the bound window's pinned tabs, or of its other tabs, in order. |
| SidebarDrop.MoveTabToBottom | src/sidebar/tablist.js:309-316 | Moves just past the last tab of the tab's group. A missing tab or an empty group throws. |
| SidebarDrop.MoveTabToTop | src/sidebar/tablist.js:317-324 | Moves to the first index of the tab's group. A missing tab or an empty group throws. |
| SidebarDrop.DropIndex | src/sidebar/tablist.js:284-293 | `min(size, dropPos)` when coming from before, otherwise `max(0, dropPos)`. |
| SidebarDrop.HandleDroppedTab | src/sidebar/tablist.js:255-295 | With the views read in document order, as the older `getAllTabsViews` does (Findings row 5): a tab from another window goes to index -1 of this window, a drop on the list end goes to the bottom, and a self-drop requests nothing. A requested index is never negative. |
| SidebarDrop.FindMozURL | src/sidebar/tablist.js:220-230 | The link url, else the bookmark uri, else nothing. |
| SidebarDrop.OnDrop | src/sidebar/tablist.js:231-254 | Drops outside tabs and the list end are ignored. Dropped tabs are handled as above, and links are opened in this window. |
| SidebarPopulate.SortByIndex | src/sidebar/tablist.js:355-374 | The sort is a permutation of the query, ordered by index. |
| SidebarPopulate.SortedPermUnique | src/sidebar/tablist.js:355-374 | With distinct indexes, any two sorted permutations coincide, so the order the query reports does not matter. |
| SidebarPopulate.Populate | src/sidebar/tablist.js:355-374 | A truthy window id binds an unbound list. A throw leaves the document unchanged. |
| SidebarPopulate.PopulateMirrors | src/sidebar/tablist.js:355-374 | Populating an empty list from any ordering of a window's snapshot throws nothing and mirrors the window. |
| SidebarPopulate.ShrinkMirrors | src/sidebar/tablist.js:415-448 | Compact mode never disturbs the mirror. |
| Browser.HostAfterWellFormed | src/sidebar/tablist.js:33-71 | Every event the browser can deliver keeps the reference window well formed. |
| Js.Includes | src/sidebar/tablist.js:340-341 | `includes` holds iff some window of the string spells the query. |
| Js.Normalize | src/sidebar/tablist.js:550 | The result is no longer than the input and has no upper-case ASCII letter. A non-empty input keeps its length. |
| Js.NormalizeIdempotent | src/sidebar/tablist.js:550 | Normalising twice is normalising once. |
| Js.ParseIntToString | src/sidebar/tab.js:284-289 | The id written into `data-tab-id` parses back unchanged. |
| LegacySync.HandleMirrors | src/tablist.js:44-76 | With the corrected `create` and update handler (Findings row 4), every valid event except a pin change keeps the single-container list mirroring the window, without an exception. |
| LegacySync.RunMirrors | src/tablist.js:44-76 | With the corrected `create` and update handler, the mirror survives any run of valid events without pin changes. |
| LegacySync.CreateMirrors | src/tablist.js:258-290 | The corrected `create` places the view at the tab's index and activates the tab iff it is active. |
| LegacySync.RemoveMirrors | src/tablist.js:320-330 | Removing keeps the mirror of the window without the tab. |
| LegacySync.MoveMirrors | src/tablist.js:44-48 | The same `toIndex+1` correction puts the view where the browser moved the tab. |
| LegacySync.PinLeavesView | src/tablist.js:384-389 | Pinning changes only the record. A tab that was not first among the unpinned tabs is left out of strip order. |
| LegacySync.PopulateMirrors | src/tablist.js:207-215 | With the corrected `create`, populating from a strip-order snapshot mirrors the window. |
| LegacySync.TabCount | src/tablist.js:320-330 | A mirrored list tracks as many tabs as the window holds. |
| LegacySync.DropInGroupMirrors | src/tablist.js:123-169 | A tab dropped on another tab of its group goes to the target's strip index. |
| LegacySync.DropAcrossGroupsMirrors | src/tablist.js:123-169 | Corrected (Findings row 6): with the query restricted to the window, a drop across groups goes to the boundary. |
| LegacySync.BottomReportsOtherWindow | src/tablist.js:173-179 | Concrete input: the query names no window, so another window's pinned tabs move the target past this window's pinned tabs. |
| LegacySync.WindowBottomPinned | src/tablist.js:173-179 | Corrected (Findings row 6): with the query restricted to the window, `moveTabToBottom` of a pinned tab targets the index just past the window's pinned tabs. |
| LegacySync.WindowTopUnpinned | src/tablist.js:180-186 | Corrected (Findings row 6): with the query restricted to the window, `moveTabToTop` of an unpinned tab targets the window's first unpinned index. |
| LegacySync.DropOnListEndMirrors | src/tablist.js:123-169 | Corrected (Findings row 6): a tab dropped on the end of the list goes past its window's group: the pinned tabs for a pinned tab, the whole strip otherwise. |
| LegacyTabList.TabById | src/tablist.js:225-227 | A record is found iff the id is a tracked number. |
| LegacyTabList.Retouch | src/tablist.js:356-389 | The setters replace the record `getTab` finds, and are no-ops when it finds none. |
| LegacyTabList.SetIconAsWritten | src/tablist.js:368-377 | Throws iff the tab is found, because the record has neither `setIcon` nor `resetIcon`. Nothing changes. |
| LegacyTabList.Filter | src/tablist.js:191-206 | A tab is visible iff its url or title contains the query, case-sensitively. Nothing else in a record changes. |
| LegacyTabList.FilterCountsHidden | src/tablist.js:191-206 | The "more tabs" count is the number of hidden tabs, and filtering again changes nothing. |
| LegacyTabList.ClearSearch | src/tablist.js:187-190 | Every tab is shown and the count is zero. |
| LegacyTabList.PlaceAgrees | src/tablist.js:342-355 | On a non-empty list, the single-container rule is the sidebar's corrected rule. |
| LegacyTabList.SetPos | src/tablist.js:342-355 | An untracked id is a no-op. Only the view order changes, as the placement rule says, and a throw changes nothing. |
| LegacyTabList.GetPos | src/tablist.js:334-341 | Undefined iff untracked. Otherwise the view's index, or -1 iff the view is absent. |
| LegacyTabList.SetActive | src/tablist.js:291-301 | An untracked id is a no-op. It throws iff the previous active id is stale. Otherwise only the two marks and `active` change. |
| LegacyTabList.Activate | src/tablist.js:291-299 | The new tab is marked, the previous one unmarked, and every other record is unchanged. |
| LegacyTabList.CreateAsWritten | src/tablist.js:258-290 | As written, `create` throws iff the tab belongs to the list's window, after tracking and placing it. |
| LegacyTabList.Create | src/tablist.js:258-290 | The corrected `create` ignores other windows and otherwise adds exactly the tab's key. |
| LegacyTabList.CreateAsWrittenSameState | src/tablist.js:258-290 | The written and corrected `create` leave the same state. Only the exception differs. |
| LegacyTabList.Remove | src/tablist.js:320-330 | Exactly the id leaves the map, and `active` is cleared iff it names the tab. A tracked tab's view leaves the list, and an untracked id leaves the list alone. |
| LegacyTabList.OnBrowserTabUpdatedAsWritten | src/tablist.js:49-76 | Throws iff a tracked tab completes loading. The icon and pinned state are then left as they were. |
| LegacyTabList.OnBrowserTabUpdated | src/tablist.js:49-76 | Corrected: a completed load shows the tab's icon, a pin change is applied, and no other record changes. |
| LegacyTabList.LoadLeavesSpinner | src/tablist.js:65-72 | Loading then completing leaves the spinner as written. The corrected handler shows the favicon. |
| LegacyTabList.PopulateWith | src/tablist.js:207-215 | A truthy window id binds an unbound list. |
| LegacyTabList.PopulateAsWrittenStops | src/tablist.js:207-215 | As written, populating stops after the window's first tab. |
| LegacyTabList.MoveTabToBottom | src/tablist.js:173-179 | Moves past the last index the query reports for the group, and throws iff there is none. |
| LegacyTabList.MoveTabToTop | src/tablist.js:180-186 | Moves to the first reported index, and throws iff there is none. |
| LegacyTabList.ListTabIdForEvent | src/tablist.js:77-81 | The climb stops at the first non-empty attribute. Running out of ancestors throws. |
| LegacyTabList.OnDrop | src/tablist.js:123-169 | Drops outside tabs and the list end are ignored, and a payload that does not parse throws. A tab from another window goes to index -1. |
| LegacyTabList.DropOnTab | src/tablist.js:140-168 | A self-drop requests nothing. Otherwise any request is a move. |
| LegacyTab.Create | src/tab.js:11-32 | Id, title, url, sound, muted and pinned come from the tab info, and a missing favicon falls back to the default. |
| LegacyTab.CreateRepeatFixed | src/tab.js:11-32 | Re-applying the same tab info through the setters changes nothing. |
| LegacyTab.UpdatePinned | src/tab.js:131-137 | Pinning drops the thumbnail and unpinning keeps it. Nothing else changes. |
| LegacyTab.PinRoundTrip | src/tab.js:131-137 | Pinning and restoring the pinned state loses only the thumbnail. |
| LegacyTab.ThumbnailLastWins | src/tab.js:145-148 | The last thumbnail wins, and pinning drops it. |
| LegacyTab.UpdateContext | src/tab.js:138-144 | A missing identity changes nothing. Otherwise its colour is shown. |
| LegacyTab.UpdateIcon | src/tab.js:115-121 | A non-empty url is shown, anything else the default favicon. Nothing else changes. |
| LegacyTab.SetSpinner | src/tab.js:128-130 | The spinner replaces the icon. |
| LegacyTab.FirstIdFrom | src/tab.js:189-194 | The first non-empty `data-tab-id` on the path, or null. |
| LegacyTab.TabIdForEvent | src/tab.js:189-194 | The loop computes the climb. It throws iff the event has no target. |
| TabContextMenu.CreateContextMenuItems | src/sidebar/tabcontextmenu.js:48-119 | The shape of the list: length 10 + [canMove] + 2·[!pinned], reload first, undo then close last, and three separators. The mute and pin entries request the opposite state, the move entry is present iff the tab can move, and the close-many entries are present iff the tab is unpinned. Each callback entry runs its own callback. |
| TabContextMenu.CreateContextMenuItemsAsWritten | src/sidebar/tabcontextmenu.js:94-103 | The same shape, but the close-underneath entry takes its command from `closeTabsAfter`. |
| TabContextMenu.OnContextMenu | src/sidebar/tablist.js:130-150 | Throws iff the tab is untracked. The tab can move to a new window iff the list has more than one tab, and the five callbacks are bound. |
| TabContextMenu.CloseUnderneathDropped | src/sidebar/tabcontextmenu.js:97 | As written, an unpinned tab's menu offers "close tabs underneath", and a click on it does nothing. |
| TabContextMenu.CloseUnderneathWired | src/sidebar/tablist.js:144-145 | Corrected: the click calls `_closeTabsUnderneath` for the menu's tab, and "close other tabs" calls `_closeAllTabsExcept`. |
| TabContextMenu.CloseOnce | src/sidebar/tabcontextmenu.js:25-47 | After `show`, a run of window events calls `onClose` once iff some event is Escape, a button-0 click or blur. A closed menu is out of the document and no longer listening. |
| ContextMenu.Render | src/contextmenu.js:16-28 | One node per item, in order. A node is a rule iff its item is "separator". |
| ContextMenu.RenderRoundTrip | src/contextmenu.js:16-28 | Reading the items back from the nodes restores them iff no separator carries a command. |
| ContextMenu.Clamp | src/contextmenu.js:39-44 | The menu fits before the window edge, never starts after the click, and either starts at the click or ends at the edge. |
| ContextMenu.ClampKeepsFittingClick | src/contextmenu.js:39-44 | The click position is kept iff the menu fits after it. |
| ContextMenu.ClampInside | src/contextmenu.js:39-44 | For a click inside the window, the coordinate is non-negative iff the menu is no larger than the window. |
| ContextMenu.PositionMenu | src/contextmenu.js:33-48 | With the 6-pixel margin added to both dimensions, each axis fits the window, starts no later than the click, and keeps the click iff it fits. |
| ContextMenu.Show | src/contextmenu.js:12-32 | A new root holding the rendered items goes into the document at the clamped position, and an earlier root stays. |
| ContextMenu.Hide | src/contextmenu.js:49-53 | A no-op for a menu never shown. Otherwise the root is detached and nothing else changes. |
| ContextMenu.ShowHideBalance | src/contextmenu.js:12-53 | Show then hide leaves no menu in the document. Showing twice leaves the first one behind. |
| ContextMenu.ClickAfterShow | src/contextmenu.js:16-28 | A click on a shown child runs exactly its item's command, except for separators. After `hide`, nothing runs. |
| Background.OnMessage | src/background.js:7-13 | The window is in the set iff the message is "sidebar-open", and other windows are untouched. |
| Background.LastMessageWins | src/background.js:7-13 | Of two messages about one window, the later decides; so a repeated message changes nothing more. |
| Background.OnClick | src/background.js:14-22 | A registered window is removed and its sidebar closed. Any other window gets its sidebar opened, with the set unchanged. |
| Background.ApplyMirrors | src/background.js:6-22 | While sidebars announce their loads and unloads, the set is exactly the open sidebars, and a click toggles its window. |
| Background.SilentCloseCostsAClick | src/background.js:14-22 | A sidebar closed without its message makes the next click a no-op close. |
| TabCenter.ReadPrefs | src/sidebar/tabcenter.js:72-79 | The keys are the defaults' keys. Each value is the stored one, else the default. |
| TabCenter.FreshProfile | src/sidebar/tabcenter.js:72-87 | An empty store gives the defaults: an empty style sheet, the light theme, compact mode 1 and compact pins. |
| TabCenter.ApplyPrefs | src/sidebar/tabcenter.js:80-87 | Only `customCSS` and `darkTheme` are applied, and only when present. |
| TabCenter.ApplyPrefsReadsTwoKeys | src/sidebar/tabcenter.js:80-87 | Other keys make no difference. |
| TabCenter.UnwrapChanges | src/sidebar/tabcenter.js:90-96 | Same keys, each mapped to its `newValue`. |
| TabCenter.UnwrapSetChanges | src/sidebar/tabcenter.js:90-96 | Unwrapping the change set of a `set` recovers exactly the values set. |
| TabCenter.LiveUpdateAgreesWithReload | src/sidebar/tabcenter.js:62-96 | Applying a change set live leaves the page and the compact settings as a fresh load after the change would. |
| TabCenter.OpenTab | src/sidebar/tabcenter.js:34-41 | Throws iff `afterCurrent` is truthy and no tab is active. `afterCurrent` is always removed, and `index` becomes the active index + 1 when it was truthy. |
| TabCenter.OpenTabKeepsProps | src/sidebar/tabcenter.js:34-41 | Every other property is passed on, and reopening with what was passed on asks for the same tab. |
| TabCenter.Search | src/sidebar/tabcenter.js:42-45 | The search is active iff the value is non-empty. The tracked tabs and the document are kept. |
| TabCenter.ClearSearchIsEmptySearch | src/sidebar/tabcenter.js:42-45 | The list's `_clearSearch` is `search("")`, which shows every tab. |

## Left out

- DOM and CSS detail: class toggles other than the modelled flags, `innerText`, scrolling, `requestAnimationFrame`, the throbber animation and layout. The menu's measured sizes are parameters.
- Thumbnails: capture, canvas resizing (floating point), `requestIdleCallback`, debouncing and timers.
- The asynchronous order of `browser.*` calls, including the `onAttached` → `browser.tabs.get` race. Each handler runs to completion on the state it is given, and requests are values.
- `normalizeStr`: Unicode NFD accent stripping is not modelled; only ASCII lower-casing is. `new URL(...).host` is not modelled either.
- JSON encoding of drag payloads. The decoded `{tabId, origWindowId}` record is modelled directly, and a payload that does not parse is `None`.
- Translation of menu labels: labels are the message keys.
- `src/sidebar/lib/contextmenu/contextmenu.js` is not part of this model. The menu object is modelled on `src/contextmenu.js`.
- The browser calls behind `reloadAllTabs`, `undoCloseTab`, `canUndoCloseTab` and the per-tab menu commands (reload, mute, pin, duplicate, move, close). They appear as command values; only the two close-many callbacks are mapped to requests.
- The top menu, the new-tab popup, the options page and the old `src/tabcenter.js`: these are UI wiring and storage I/O.
- The stored `index` of a record. It is set at `init` and never shifted, so no property about it is claimed. Only order properties are proved.
- `tabs.query({active: true})` in `_openTab` is not filtered by window. The model takes the indexes it reports as a parameter.
- A storage change that removes a key (`newValue` undefined) is modelled only through the value it carries, not as a deletion.
- SidebarTabList.Create: the contract does not say where the view lands. The placement is stated by SidebarSync.CreateMirrors for lists that mirror their window.
- SidebarTabList.OnBrowserTabMoved: the contract states only that nothing but the document changes. The resulting order is stated by SidebarSync.MoveMirrors.
- SidebarPopulate.Populate: the contract states binding and the no-throw document. The resulting order is stated by SidebarPopulate.PopulateMirrors.
- LegacySync.HandleMirrors: pin changes are excluded, because the single-container list never moves a view when a tab is pinned (see LegacySync.PinLeavesView).
- LegacyTab.UpdateVisibility, LegacyTab.UpdateThumbnail: plain field updates without contracts of their own. They are used by LegacyTabList.Filter and LegacyTab.ThumbnailLastWins.
- SidebarSync.HandleMirrors, SidebarSync.RunMirrors: proved for the corrected update handler (Findings row 1) and for views read in document order (Findings row 5). As written, every update of a tracked tab and every `_setPos` of one throws; SidebarSync.HandleAsWritten keeps that dispatch, and SidebarSync.UpdateAsWrittenDiverges and SidebarSync.CreateAsWrittenLosesView show where the mirror is lost.
- SidebarSync.CreateMirrors, SidebarSync.MoveMirrors, SidebarSync.PinMirrors, SidebarSync.UnpinMirrors: the placement goes through `_setPos`, which as written throws at the missing `getAllTabsViews` (Findings row 5). The theorems are about the corrected reader.
- SidebarSync.GetPosMirrors, SidebarSync.DropInGroupMirrors, SidebarSync.CloseTabsUnderneathMirrors, SidebarDrop.HandleDroppedTab: `_getPos` and `_closeTabsUnderneath` throw as written for the same reason. The in-group drop and "close tabs underneath" are proved with the views read in document order. The as-written in-group drop is not modelled separately, because it stops at the same `_getPos` throw that SidebarTabList.GetPosAsWritten states.
- SidebarTabList.GetPos, SidebarTabList.SetPos, SidebarTabList.CloseTabsUnderneath: these read the views in document order, the corrected reading (Findings row 5). Their as-written counterparts are the members with the `AsWritten` suffix.
- LegacySync.HandleMirrors, LegacySync.RunMirrors: proved for the corrected `create` and update handler (Findings row 4). As written, every `create` in the window throws before `setPinned`.
- TabContextMenu.CreateContextMenuItems: the undo entry's `isEnabled` flag (src/sidebar/tabcontextmenu.js:109) is not carried on the item. The sidebar's menu is the library it imports, `src/sidebar/lib/contextmenu/contextmenu.js` (src/sidebar/tabcontextmenu.js:1,17,22), which is not part of this model (see above). Whether that library honours `isEnabled` is unknown.
- The asynchronous icon fallbacks: the `onerror` of the probe image in `_setIcon` (src/sidebar/tab.js:186-190) and the legacy icon's `error` listener (src/tab.js:53). Both depend on image loading, which is outside the model.
- `parseInt` is modelled in base 10 only: the `0x` prefix that switches it to base 16 is not modelled, and white space is only space, tab, line feed and carriage return. Tab ids are written as decimals, so neither case occurs.
- SidebarTabList.OnPrefsChanged: the `_maybeShrinkTabs` call at the end (src/sidebar/tablist.js:79) is not part of the function. It defers the work through `requestAnimationFrame` (src/sidebar/tablist.js:409-413), and the deferred work is its own step, SidebarTabList.MaybeShrinkTabs.
- SidebarSync.Mirrors: a hidden tab keeps its view, as the code does (Findings row 7). The mirror theorems state the document as the code builds it. The tests' expectation that only unhidden tabs have views (src/test/tabs-position.test.js:7-12) holds only after SidebarSync.DetachHidden, which no handler calls.
- The legacy list's compact mode (`maybeShrinkTabs` in src/tablist.js:239-256) is not modelled; only the sidebar list's compact mode is.

## Findings

| source | as written | input that shows it | evidently intended | confidence | as-written member | corrected member |
|---|---|---|---|---|---|---|
| src/sidebar/tablist.js:97 | `sidetab.onUpdate(changeInfo)` leaves out `tab`, and `onUpdate` reads `tab.favIconUrl` (src/sidebar/tab.js:71). Every update throws a TypeError, and the pinned-state handling after it never runs. | any update of a tracked tab, e.g. `pinned: true` | `onUpdate(changeInfo, tab)`, so the pin change moves the view | high, not executed | SidebarTabList.OnBrowserTabUpdatedAsWritten, SidebarSync.UpdateAsWrittenDiverges | SidebarTabList.OnBrowserTabUpdated, SidebarSync.PinMirrors |
| src/sidebar/tablist.js:522-526 | at `pos` 0, when `elements[0]` is in the other container, the fallback reads `elements[-1].nextSibling`, which throws | creating a pinned tab (view 7) at index 0 in a window whose only view is unpinned view 5; `__create` has not inserted 7, so `elements[0]` is 5 | insert at the front of the tab's own container | medium, not executed | Dom.PositionAtAsWrittenFront, Dom.CreatePinnedFirst | Dom.PositionAt, Dom.PlaceNew |
| src/sidebar/tabcontextmenu.js:97 | the entry reads `this._props.closeTabsAfter`, while the list passes `closeTabsUnderneath` (src/sidebar/tablist.js:144), so the entry has no command | a right click on any unpinned tab, then "close tabs underneath" | the entry runs `_closeTabsUnderneath` for the tab | high, not executed | TabContextMenu.CloseUnderneathDropped, TabContextMenu.CreateContextMenuItemsAsWritten | TabContextMenu.CloseUnderneathWired, TabContextMenu.CreateContextMenuItems |
| src/tablist.js:368-377 | `setIcon` calls `sidetab.setIcon`/`sidetab.resetIcon`, but the old record defines only `_setIcon`/`_resetIcon` (src/tab.js:122-127). `create` throws before `setPinned`, and `populate` stops after the first tab. | populating a window whose first tab has index 0 | call the record's `updateIcon` | high, not executed | LegacyTabList.SetIconAsWritten, LegacyTabList.CreateAsWritten, LegacyTabList.PopulateAsWrittenStops | LegacyTabList.Create, LegacyTabList.PopulateWith, LegacySync.PopulateMirrors |
| src/sidebar/tablist.js:504-515 | `_getPos`, `_setPos` and `_closeTabsUnderneath` (line 153) call `SideTab.getAllTabsViews()`, but the `SideTab` imported from `./tab.js` has no such method (src/sidebar/tab.js:257-337); only the older src/tab.js:195-197 defines it. Each call throws a TypeError, so `_create`, `_onBrowserTabMoved`, `_onTabPinned`, an in-group drop and "close tabs underneath" all throw for every tracked tab. | creating any tab of the bound window: it is tracked, then `_setPos` throws and its view is never inserted | the older definition, `document.getElementsByClassName("tab")`: every tab view in document order | high, not executed | SidebarTabList.GetPosAsWritten, SidebarTabList.SetPosAsWritten, SidebarTabList.CreateAsWritten, SidebarTabList.CloseTabsUnderneathAsWritten, SidebarSync.CreateAsWrittenLosesView, SidebarSync.MoveAsWrittenThrows | SidebarTabList.GetPos, SidebarTabList.SetPos, SidebarTabList.CloseTabsUnderneath, SidebarSync.CreateMirrors, SidebarSync.MoveMirrors |
| src/tablist.js:173-186 | `moveTabToBottom` and `moveTabToTop` query `{pinned: tab.pinned}` without `windowId`, so the indexes come from every window | a window whose only pinned tab is 5, while another window has pinned tabs at indexes 0, 1 and 2; `moveTabToBottom` of tab 5 (a drop of it on an unpinned tab) targets index 3 instead of 1 | query `{pinned: tab.pinned, windowId}`, so the tab goes to the boundary of its own window's group | medium, not executed | LegacySync.BottomReportsOtherWindow, LegacyTabList.MoveTabToBottom | LegacySync.WindowBottomPinned, LegacySync.DropAcrossGroupsMirrors, LegacySync.DropOnListEndMirrors |
| src/sidebar/tab.js:61-62 | an update with `hidden` only records the flag; neither the record nor the list (src/sidebar/tablist.js:92-102) takes the view out of the document, while the tests expect only unhidden tabs to have views (src/test/tabs-position.test.js:7-12) | a window of two tabs, then hiding one of them: its view stays in the document | a hidden tab's view leaves the document, and the other views keep strip order | medium, not executed | SidebarSync.HiddenKeepsView | SidebarSync.DetachHidden, SidebarSync.DetachHiddenMeetsTests, SidebarSync.HideDetachesView |
