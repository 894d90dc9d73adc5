/** The older tab list (`src/tablist.js`): every tab view lives in the one
    list `#tablist`, in the order the browser reports, and the list answers
    the browser's tab events, search filtering and drag and drop. As with
    the later sidebar, each handler yields its new state and the exception
    it raises, if any; a view is named by its tab's id. */
module LegacyTabList {
  import opened Js
  import opened Seqs
  import opened Dom
  import opened Browser
  import opened LegacyTab
  import SidebarTabList
  import SidebarDrop

  /** The list's state: the tab records by id, the id held in `active`,
      the bound window, the ids of the views in `#tablist` in document
      order, and the count the "more tabs" element shows (0 when it carries
      no `hasMoreTabs` attribute). */
  datatype TabList = TabList(
    tabs: map<TabId, SideTab>,
    active: Option<TabId>,
    windowId: Option<int>,
    view: seq<TabId>,
    moreTabs: nat)

  /** The state the constructor leaves. */
  const Empty := TabList(map[], None, None, [], 0)

  /** `checkWindow(tab)`: the tab belongs to the bound window. */
  predicate CheckWindow(l: TabList, tab: TabInfo)
  {
    l.windowId == Some(tab.windowId)
  }

  /** `getTabById(tabId)`: the record kept under a numeric id. */
  function TabById(l: TabList, id: JsValue): (r: Option<SideTab>)
    ensures r.Some? <==> id.Num? && id.n in l.tabs
    ensures r.Some? ==> r.value == l.tabs[id.n]
  {
    if id.Num? && id.n in l.tabs then Some(l.tabs[id.n]) else None
  }

  /** Whether `getTab(tab)` finds a record: the tab is of the bound window
      and tracked. */
  predicate Finds(l: TabList, tab: TabInfo)
  {
    CheckWindow(l, tab) && tab.id in l.tabs
  }

  /** The `setTitle`, `setURL`, `setMuted`, `setAudible`, `setIcon`,
      `setSpinner` and `setPinned` pattern: the record `getTab` finds is
      replaced by its updated copy `t`; when it finds none nothing
      changes. */
  function Retouch(l: TabList, tab: TabInfo, t: SideTab): (r: TabList)
    ensures Finds(l, tab) ==> r.tabs == l.tabs[tab.id := t]
    ensures !Finds(l, tab) ==> r == l
    ensures r.(tabs := l.tabs) == l && r.tabs.Keys == l.tabs.Keys
  {
    if Finds(l, tab) then l.(tabs := l.tabs[tab.id := t]) else l
  }

  /** Writing back the record `getTab` finds changes nothing. */
  lemma RetouchSame(l: TabList, tab: TabInfo)
    requires Finds(l, tab)
    ensures Retouch(l, tab, l.tabs[tab.id]) == l
  {
    assert l.tabs[tab.id := l.tabs[tab.id]] == l.tabs;
  }

  /** `setTitle`, `setURL`, `setMuted` and `setAudible` with the same tab,
      one after another, as `create` calls them. */
  function Refreshed(t: SideTab, tab: TabInfo): (r: SideTab)
    ensures r.(title := t.title, url := t.url, muted := t.muted, sound := t.sound) == t
  {
    UpdateAudible(UpdateMuted(UpdateURL(UpdateTitle(t, tab.title), tab.url), tab.muted), tab.audible)
  }

  /** The record part of `setIcon` as evidently intended: the record's own
      `updateIcon` shows the favicon, or the default one when there is
      none. */
  function IconOf(tab: TabInfo): string
  {
    if NonEmpty(tab.favIconUrl) then tab.favIconUrl.value else DefaultIcon
  }

  /** `setIcon(tab)` as written: it calls `setIcon` or `resetIcon` on the
      record, and the record has neither method, so whenever `getTab`
      finds the tab the call throws a TypeError. */
  function SetIconAsWritten(l: TabList, tab: TabInfo): (r: Step<TabList>)
    ensures r.state == l
    ensures r.thrown.Some? <==> Finds(l, tab)
  {
    if Finds(l, tab) then Step(l, Some(TypeError)) else Step(l, None)
  }

  // ---------------------------------------------------------------------
  // Search

  /** The match rule of `filter(query)`: the url or the title contains the
      query, case-sensitively. */
  predicate Matches(t: SideTab, query: string)
  {
    Includes(t.url, query) || Includes(t.title, query)
  }

  /** `filter(query)`: each tab is shown exactly when it matches, and the
      "more tabs" element counts the tabs that do not. */
  function Filter(l: TabList, query: string): (r: TabList)
    ensures r.tabs.Keys == l.tabs.Keys
    ensures forall k :: k in r.tabs ==> r.tabs[k].visible == Matches(l.tabs[k], query)
    ensures forall k :: k in r.tabs ==> r.tabs[k].(visible := l.tabs[k].visible) == l.tabs[k]
    ensures r.(tabs := l.tabs, moreTabs := l.moreTabs) == l
  {
    var shown := map k | k in l.tabs :: UpdateVisibility(l.tabs[k], Matches(l.tabs[k], query));
    var hidden := set k | k in l.tabs && !Matches(l.tabs[k], query);
    l.(tabs := shown, moreTabs := |hidden|)
  }

  /** The tabs whose views are hidden. */
  function HiddenTabs(l: TabList): (s: set<TabId>)
    ensures forall k :: k in s <==> k in l.tabs && !l.tabs[k].visible
  {
    set k | k in l.tabs && !l.tabs[k].visible
  }

  /** After filtering, the "more tabs" element counts exactly the hidden
      views, and filtering again with the same query changes nothing. */
  lemma FilterCountsHidden(l: TabList, query: string)
    ensures Filter(l, query).moreTabs == |HiddenTabs(Filter(l, query))|
    ensures Filter(Filter(l, query), query) == Filter(l, query)
  {
    var r := Filter(l, query);
    var hidden := set k | k in l.tabs && !Matches(l.tabs[k], query);
    assert hidden == HiddenTabs(r);
    forall k | k in r.tabs
      ensures Matches(r.tabs[k], query) == Matches(l.tabs[k], query)
    {
    }
    assert (set k | k in r.tabs && !Matches(r.tabs[k], query)) == hidden;
  }

  /** `clearSearch()`: the empty query shows every tab and the "more tabs"
      element is cleared. */
  function ClearSearch(l: TabList): (r: TabList)
    ensures r.tabs.Keys == l.tabs.Keys && r.moreTabs == 0
    ensures forall k :: k in r.tabs ==> r.tabs[k] == l.tabs[k].(visible := true)
    ensures r.(tabs := l.tabs, moreTabs := l.moreTabs) == l
  {
    forall k | k in l.tabs
      ensures Matches(l.tabs[k], "")
    {
      IncludesEmpty(l.tabs[k].url);
    }
    var r := Filter(l, "");
    assert (set k | k in l.tabs && !Matches(l.tabs[k], "")) == {};
    r
  }

  // ---------------------------------------------------------------------
  // Positions

  /** The document of the single list: no pinned list, every view in
      `#tablist`. */
  function AsDocument(view: seq<TabId>): Document
  {
    Document([], view)
  }

  /** The document part of `setPos`: the view at `pos` is the reference,
      otherwise the next sibling of the view at `pos - 1`; with no view at
      `pos - 1` either, reading its `nextSibling` throws. */
  function Place(view: seq<TabId>, x: TabId, pos: int): (r: Result<seq<TabId>>)
  {
    var d := AsDocument(view);
    match ReferenceAsWritten(d, UnpinnedList, pos)
    case Err(e) => Err(e)
    case Ok(ref) =>
      match InsertBefore(d, UnpinnedList, x, ref)
      case Err(e) => Err(e)
      case Ok(d') => Ok(d'.unpinned)
  }

  /** With one list, the positioning rule of `setPos` is the corrected
      rule of the later sidebar whenever the list is not empty: the
      reference found at position 0 is always the first view, so the case
      the later code misses cannot arise. */
  lemma PlaceAgrees(view: seq<TabId>, x: TabId, pos: int)
    requires |view| > 0 && pos >= 0
    ensures PositionAt(AsDocument(view), UnpinnedList, x, pos).Ok? ==> PositionAt(AsDocument(view), UnpinnedList, x, pos).value.pinned == []
    ensures Place(view, x, pos) == match PositionAt(AsDocument(view), UnpinnedList, x, pos)
                                   case Err(e) => Err(e)
                                   case Ok(d) => Ok(d.unpinned)
  {
    var d := AsDocument(view);
    assert Elements(d) == view;
    assert ReferenceAsWritten(d, UnpinnedList, pos) == Reference(d, UnpinnedList, pos);
    WithoutAbsent([], x);
  }

  /** `setPos(tabId, pos)`: an untracked id changes nothing; otherwise the
      tab's view is placed, or the call throws and nothing moves. */
  function SetPos(l: TabList, id: TabId, pos: int): (r: Step<TabList>)
    ensures id !in l.tabs ==> r == Step(l, None)
    ensures r.state.(view := l.view) == l
    ensures r.thrown.Some? ==> r.state == l
    ensures id in l.tabs && r.thrown.None? ==> Place(l.view, id, pos) == Ok(r.state.view)
  {
    if id !in l.tabs then Step(l, None)
    else
      match Place(l.view, id, pos)
      case Err(e) => Step(l, Some(e))
      case Ok(v) => Step(l.(view := v), None)
  }

  /** `getPos(tabId)`: undefined (None) for an untracked tab, otherwise the
      index of its view, -1 when it has none. */
  function GetPos(l: TabList, id: TabId): (r: Option<int>)
    ensures r.None? <==> id !in l.tabs
    ensures r.Some? ==> -1 <= r.value < |l.view|
    ensures r.Some? ==> (r.value == -1 <==> l.tabs[id].id !in l.view)
    ensures r.Some? && r.value >= 0 ==> l.view[r.value] == l.tabs[id].id
  {
    if id !in l.tabs then None else Some(IndexOf(l.view, l.tabs[id].id))
  }

  /** `onBrowserTabMoved(tabId, moveInfo)`: the same target rule as the
      later sidebar. */
  function OnBrowserTabMoved(l: TabList, id: TabId, fromIndex: int, toIndex: int): (r: Step<TabList>)
    ensures r == SetPos(l, id, SidebarTabList.MovedTarget(fromIndex, toIndex))
  {
    SetPos(l, id, if fromIndex < toIndex then toIndex + 1 else toIndex)
  }

  // ---------------------------------------------------------------------
  // The active tab

  /** `setActive(tabId)`: for a tracked tab, the previously active tab (if
      `active` is truthy) is marked inactive, then the new one active. A
      previous id with no record makes `getTabById(...).updateActive` throw
      before anything changes. */
  function SetActive(l: TabList, id: TabId): (r: Step<TabList>)
    ensures id !in l.tabs ==> r == Step(l, None)
    ensures r.thrown.Some? <==> id in l.tabs && StaleActive(l)
    ensures r.thrown.Some? ==> r.state == l
    ensures r.thrown.None? && id in l.tabs ==> r.state == Activate(l, id)
  {
    if id !in l.tabs then Step(l, None)
    else if StaleActive(l) then Step(l, Some(TypeError))
    else Step(Activate(l, id), None)
  }

  /** `active` is truthy but names a tab with no record. */
  predicate StaleActive(l: TabList)
  {
    l.active.Some? && l.active.value != 0 && l.active.value !in l.tabs
  }

  /** The marking part of `setActive` for a tracked tab. */
  function Activate(l: TabList, id: TabId): (r: TabList)
    requires id in l.tabs && !StaleActive(l)
    ensures r.(tabs := l.tabs, active := l.active) == l
    ensures r.tabs.Keys == l.tabs.Keys
    ensures r.active == Some(id) && r.tabs[id].active
    ensures forall k :: k in l.tabs && k != id ==>
              r.tabs[k] == if l.active == Some(k) && k != 0 then l.tabs[k].(active := false) else l.tabs[k]
    ensures r.tabs[id] == l.tabs[id].(active := true)
  {
    var tabs := Deactivated(l.tabs, l.active);
    l.(tabs := tabs[id := UpdateActive(tabs[id], true)], active := Some(id))
  }

  /** The records after the previously active tab, if `active` is truthy,
      is marked inactive. */
  function Deactivated(tabs: map<TabId, SideTab>, active: Option<TabId>): (r: map<TabId, SideTab>)
    requires active.Some? && active.value != 0 ==> active.value in tabs
    ensures r.Keys == tabs.Keys
    ensures forall k :: k in tabs ==> r[k] == if active == Some(k) && k != 0 then tabs[k].(active := false) else tabs[k]
  {
    if active.Some? && active.value != 0 then tabs[active.value := UpdateActive(tabs[active.value], false)] else tabs
  }

  // ---------------------------------------------------------------------
  // Creation and removal

  /** `create(tab)` up to the failing `setIcon` call: a tab of another
      window is ignored; otherwise the search is cleared, a fresh record is
      tracked, its view appended to the list and moved to the tab's index,
      the tab activated if it is the active one, and its title, url, muted
      and audible state set again. */
  function CreatePrefix(l: TabList, tab: TabInfo): (r: Step<TabList>)
    ensures !CheckWindow(l, tab) ==> r == Step(l, None)
    ensures CheckWindow(l, tab) ==> r.state.tabs.Keys == l.tabs.Keys + {tab.id}
    ensures r.state.windowId == l.windowId
  {
    if !CheckWindow(l, tab) then Step(l, None)
    else
      var s := Settled(l, tab);
      if s.thrown.Some? then s
      else Step(Retouch(s.state, tab, Refreshed(s.state.tabs[tab.id], tab)), None)
  }

  /** The search cleared, a fresh record tracked and the tab's view taken
      out of the list and appended to it. */
  function Tracked(l: TabList, tab: TabInfo): TabList
  {
    var l1 := ClearSearch(l);
    l1.(tabs := l1.tabs[tab.id := LegacyTab.Create(tab)], view := Without(l1.view, tab.id) + [tab.id])
  }

  /** The tracked tab's view moved to the tab's index, then the tab
      activated if it is the active one. */
  function Settled(l: TabList, tab: TabInfo): Step<TabList>
  {
    var s := SetPos(Tracked(l, tab), tab.id, tab.index);
    if s.thrown.Some? || !tab.active then s else SetActive(s.state, tab.id)
  }

  /** `create(tab)` as written: after the prefix, `setIcon` throws for the
      tab just tracked, so `setPinned` is never reached. */
  function CreateAsWritten(l: TabList, tab: TabInfo): (r: Step<TabList>)
    ensures r.state == CreatePrefix(l, tab).state
    ensures CheckWindow(l, tab) <==> r.thrown.Some?
  {
    var s := CreatePrefix(l, tab);
    if s.thrown.Some? then s
    else
      assert CheckWindow(l, tab) ==> Finds(s.state, tab);
      SetIconAsWritten(s.state, tab)
  }

  /** `create(tab)` with the icon shown through the record's `updateIcon`,
      followed by `setPinned`. */
  function Create(l: TabList, tab: TabInfo): (r: Step<TabList>)
    ensures !CheckWindow(l, tab) ==> r == Step(l, None)
    ensures CheckWindow(l, tab) ==> r.state.tabs.Keys == l.tabs.Keys + {tab.id}
    ensures r.state.windowId == l.windowId
  {
    var s := CreatePrefix(l, tab);
    if s.thrown.Some? || !Finds(s.state, tab) then s
    else Step(Retouch(s.state, tab, UpdatePinned(UpdateIcon(s.state.tabs[tab.id], tab.favIconUrl), tab.pinned)), None)
  }

  /** The failing call costs nothing but the exception: the state `create`
      leaves as written is the one the corrected `create` leaves, because
      the record already shows the icon and pinned state `setIcon` and
      `setPinned` would set. */
  lemma CreateAsWrittenSameState(l: TabList, tab: TabInfo)
    ensures CreateAsWritten(l, tab).state == Create(l, tab).state
    ensures CheckWindow(l, tab) ==> CreateAsWritten(l, tab).thrown == Some(TypeError)
    ensures Create(l, tab).thrown.None? ==> (CheckWindow(l, tab) <==> CreateAsWritten(l, tab).thrown.Some?)
  {
    var s := CreatePrefix(l, tab);
    if s.thrown.None? && CheckWindow(l, tab) {
      CreatePrefixRecord(l, tab);
      var t := s.state.tabs[tab.id];
      assert UpdatePinned(UpdateIcon(t, tab.favIconUrl), tab.pinned) == t;
      RetouchSame(s.state, tab);
      assert Create(l, tab) == Step(s.state, None);
      assert CreateAsWritten(l, tab) == Step(s.state, Some(TypeError));
    }
  }

  /** The record `create` tracks already shows the tab's icon and pinned
      state (and no thumbnail once pinned), whatever the activation did. */
  lemma CreatePrefixRecord(l: TabList, tab: TabInfo)
    requires CheckWindow(l, tab) && CreatePrefix(l, tab).thrown.None?
    ensures var t := CreatePrefix(l, tab).state.tabs[tab.id];
            t.icon == IconOf(tab) && t.pinned == tab.pinned && (tab.pinned ==> t.thumbnail.None?)
  {
    var t0 := LegacyTab.Create(tab);
    var l2 := Tracked(l, tab);
    var s := SetPos(l2, tab.id, tab.index);
    assert s.state.tabs == l2.tabs;
    var s' := Settled(l, tab);
    assert s'.state.tabs[tab.id].(active := t0.active) == t0;
    assert Finds(s'.state, tab);
  }

  /** `remove(tabId)`: `active` is cleared when it names the tab, and a
      tracked tab loses its record and its view. */
  function Remove(l: TabList, id: TabId): (r: TabList)
    ensures r.tabs.Keys == l.tabs.Keys - {id}
    ensures forall k :: k in r.tabs ==> r.tabs[k] == l.tabs[k]
    ensures r.active == if l.active == Some(id) then None else l.active
    ensures id in l.tabs ==> r.view == Without(l.view, id)
    ensures id !in l.tabs ==> r.view == l.view
    ensures r.windowId == l.windowId && r.moreTabs == l.moreTabs
  {
    var l1 := if l.active == Some(id) then l.(active := None) else l;
    if id in l1.tabs then l1.(view := Without(l1.view, id), tabs := l1.tabs - {id}) else l1
  }

  // ---------------------------------------------------------------------
  // Updates

  /** The record part of `onBrowserTabUpdated(tabId, changeInfo, tab)` up
      to the `status` key: each key present in the change set refreshes
      the matching part of the record from `tab`, and a load in progress
      shows the spinner. */
  function UpdatedPrefix(t: SideTab, change: ChangeInfo, tab: TabInfo): (r: SideTab)
    ensures r.id == t.id && r.pinned == t.pinned && r.active == t.active && r.visible == t.visible
    ensures r.thumbnail == t.thumbnail && r.context == t.context
    ensures change.status == Some(Loading) ==> r.icon == SpinnerIcon
    ensures change.status != Some(Loading) ==> r.icon == t.icon
  {
    var t4 := ChangedFields(t, change, tab);
    if change.status == Some(Loading) then SetSpinner(t4) else t4
  }

  /** The title, url, muted and audible updates of a change set: every
      other field, the icon among them, is left alone. */
  function ChangedFields(t: SideTab, change: ChangeInfo, tab: TabInfo): (r: SideTab)
    ensures r.(title := t.title, url := t.url, muted := t.muted, sound := t.sound) == t
  {
    ChangedSound(ChangedText(t, change, tab), change, tab)
  }

  function ChangedText(t: SideTab, change: ChangeInfo, tab: TabInfo): (r: SideTab)
    ensures r.(title := t.title, url := t.url) == t
  {
    var t1 := if change.title.Some? then UpdateTitle(t, tab.title) else t;
    if change.url.Some? then UpdateURL(t1, tab.url) else t1
  }

  function ChangedSound(t: SideTab, change: ChangeInfo, tab: TabInfo): (r: SideTab)
    ensures r.(muted := t.muted, sound := t.sound) == t
  {
    var t1 := if change.muted.Some? then UpdateMuted(t, tab.muted) else t;
    if change.audible.Some? then UpdateAudible(t1, tab.audible) else t1
  }

  /** As written: a completed load of a tracked tab reaches the failing
      `setIcon`, so the icon keeps whatever it showed (the spinner, after a
      load) and a `pinned` key in the same change set is not applied. */
  function OnBrowserTabUpdatedAsWritten(l: TabList, change: ChangeInfo, tab: TabInfo): (r: Step<TabList>)
    ensures r.thrown.Some? <==> change.status == Some(Complete) && Finds(l, tab)
    ensures r.state.(tabs := l.tabs) == l && r.state.tabs.Keys == l.tabs.Keys
    ensures r.thrown.Some? ==> r.state.tabs[tab.id].icon == l.tabs[tab.id].icon
                               && r.state.tabs[tab.id].pinned == l.tabs[tab.id].pinned
  {
    if !Finds(l, tab) then Step(l, None)
    else
      var t := UpdatedPrefix(l.tabs[tab.id], change, tab);
      if change.status == Some(Complete) then Step(Retouch(l, tab, t), Some(TypeError))
      else Step(Retouch(l, tab, if change.pinned.Some? then UpdatePinned(t, tab.pinned) else t), None)
  }

  /** With the icon update the handler evidently intends: a completed load
      shows the tab's favicon, and a pin change is applied. */
  function OnBrowserTabUpdated(l: TabList, change: ChangeInfo, tab: TabInfo): (r: TabList)
    ensures r.(tabs := l.tabs) == l && r.tabs.Keys == l.tabs.Keys
    ensures Finds(l, tab) && change.status == Some(Complete) ==> r.tabs[tab.id].icon == IconOf(tab)
    ensures Finds(l, tab) && change.pinned.Some? ==> r.tabs[tab.id].pinned == tab.pinned
    ensures forall k :: k in l.tabs && k != tab.id ==> r.tabs[k] == l.tabs[k]
    ensures !Finds(l, tab) ==> r == l
  {
    if !Finds(l, tab) then l
    else
      var t := UpdatedPrefix(l.tabs[tab.id], change, tab);
      var t' := if change.status == Some(Complete) then UpdateIcon(t, tab.favIconUrl) else t;
      Retouch(l, tab, if change.pinned.Some? then UpdatePinned(t', tab.pinned) else t')
  }

  /** A tab that loads (status "loading") and then completes: as written
      its icon is left as the spinner and the second event throws; the
      corrected handler shows its favicon. */
  lemma LoadLeavesSpinner(l: TabList, tab: TabInfo)
    requires Finds(l, tab)
    ensures var loading := NoChange.(status := Some(Loading));
            var complete := NoChange.(status := Some(Complete));
            var s := OnBrowserTabUpdatedAsWritten(OnBrowserTabUpdatedAsWritten(l, loading, tab).state, complete, tab);
            s.thrown == Some(TypeError) && s.state.tabs[tab.id].icon == SpinnerIcon
            && OnBrowserTabUpdated(OnBrowserTabUpdated(l, loading, tab), complete, tab).tabs[tab.id].icon == IconOf(tab)
  {
  }

  // ---------------------------------------------------------------------
  // Populating

  /** Feeding tabs to a `create` one after another, as the loop of
      `populate` does: the first exception ends the loop (the async
      function rejects) and the remaining tabs are never created. */
  function CreateAllWith(l: TabList, ts: seq<TabInfo>, asWritten: bool): (r: Step<TabList>)
    ensures r.state.windowId == l.windowId
    decreases |ts|
  {
    if |ts| == 0 then Step(l, None)
    else
      var s := if asWritten then CreateAsWritten(l, ts[0]) else Create(l, ts[0]);
      if s.thrown.Some? then s else CreateAllWith(s.state, ts[1..], asWritten)
  }

  /** `populate(windowId)` given what `tabs.query({currentWindow: true})`
      reports: a truthy window id binds an unbound list, then each reported
      tab is created in the order reported. */
  function PopulateWith(l: TabList, windowId: int, query: seq<TabInfo>, asWritten: bool): (r: Step<TabList>)
    ensures l.windowId.None? && windowId != 0 ==> r.state.windowId == Some(windowId)
    ensures l.windowId.Some? || windowId == 0 ==> r.state.windowId == l.windowId
  {
    var l1 := if windowId != 0 && l.windowId.None? then l.(windowId := Some(windowId)) else l;
    CreateAllWith(l1, query, asWritten)
  }

  /** As written, populating stops after the first tab of the window: its
      `create` throws. */
  lemma PopulateAsWrittenStops(windowId: int, query: seq<TabInfo>)
    requires windowId != 0 && |query| > 0 && query[0].windowId == windowId && query[0].index == 0
    ensures PopulateWith(Empty, windowId, query, true).thrown == Some(TypeError)
    ensures PopulateWith(Empty, windowId, query, true).state.tabs.Keys == {query[0].id}
    ensures PopulateWith(Empty, windowId, query, true).state.view == [query[0].id]
  {
    var l1 := Empty.(windowId := Some(windowId));
    var tab := query[0];
    CreateAsWrittenSameState(l1, tab);
    var c := ClearSearch(l1);
    assert c == l1;
    var l2 := l1.(tabs := map[tab.id := LegacyTab.Create(tab)], view := [tab.id]);
    assert Without([], tab.id) == [];
    assert Place([tab.id], tab.id, 0) == Ok([tab.id]) by {
      assert Elements(AsDocument([tab.id])) == [tab.id];
    }
    assert SetPos(l2, tab.id, 0) == Step(l2, None);
  }

  // ---------------------------------------------------------------------
  // Drag and drop

  /** The indexes `tabs.query({pinned})` reports for pinned and for other
      tabs. The query names no window, so the browser reports the tabs of
      every window. */
  datatype GroupQuery = GroupQuery(pinned: seq<int>, unpinned: seq<int>)

  function Reported(q: GroupQuery, pinned: bool): seq<int>
  {
    if pinned then q.pinned else q.unpinned
  }

  /** `moveTabToBottom(tab)`: just past the last tab the query reports for
      the tab's group. A missing tab or an empty report throws inside the
      async function, and no request is sent. */
  function MoveTabToBottom(tab: Option<SideTab>, q: GroupQuery): (r: Result<Request>)
    ensures tab.None? || |Reported(q, tab.value.pinned)| == 0 <==> r == Err(TypeError)
    ensures r.Ok? ==> r.value.MoveTab? && r.value.tabId == tab.value.id
    ensures r.Ok? ==> var s := Reported(q, tab.value.pinned); r.value.index == s[|s| - 1] + 1
  {
    if tab.None? then Err(TypeError)
    else
      var same := Reported(q, tab.value.pinned);
      if |same| == 0 then Err(TypeError) else Ok(MoveTab(tab.value.id, same[|same| - 1] + 1))
  }

  /** `moveTabToTop(tab)`: onto the first index the query reports for the
      tab's group. */
  function MoveTabToTop(tab: Option<SideTab>, q: GroupQuery): (r: Result<Request>)
    ensures tab.None? || |Reported(q, tab.value.pinned)| == 0 <==> r == Err(TypeError)
    ensures r.Ok? ==> r.value == MoveTab(tab.value.id, Reported(q, tab.value.pinned)[0])
  {
    if tab.None? then Err(TypeError)
    else
      var same := Reported(q, tab.value.pinned);
      if |same| == 0 then Err(TypeError) else Ok(MoveTab(tab.value.id, same[0]))
  }

  /** `getTabIdForEvent(e)`: climbs from the target while the
      `data-tab-id` attribute is falsy; unlike `SideTab.tabIdForEvent`,
      running out of ancestors reads the attribute of null and throws. */
  function ListTabIdForEvent(path: seq<Node>): (r: Result<JsValue>)
    ensures |path| == 0 || FirstIdFrom(path, 0).None? <==> r == Err(TypeError)
    ensures r.Ok? ==> r.value == ParseAttr(FirstIdFrom(path, 0))
  {
    if |path| == 0 then Err(TypeError)
    else
      var a := FirstIdFrom(path, 0);
      if a.None? then Err(TypeError) else Ok(ParseAttr(a))
  }

  /** `onDrop(e)`. Drops outside the tabs, the spacer and the "more tabs"
      element are ignored. The `text` payload is parsed as JSON (None: it
      does not parse, and JSON.parse throws). A tab from another window is
      moved to the end of this one; a drop on the list end sends the tab to
      the bottom of its group; a drop on the dragged tab itself does
      nothing; a drop across the pinned boundary sends it to the nearest
      end of its own group; any other drop moves it to the target's
      position. */
  function OnDrop(l: TabList, path: seq<Node>, data: Option<SidebarDrop.DraggedTab>, q: GroupQuery): (r: Result<Option<Request>>)
    ensures |path| == 0 || (!IsTabNode(path[0]) && !SidebarDrop.OnListEnd(path)) ==> r == Ok(None)
    ensures |path| > 0 && (IsTabNode(path[0]) || SidebarDrop.OnListEnd(path)) && data.None? ==> r == Err(SyntaxError)
    ensures |path| > 0 && (IsTabNode(path[0]) || SidebarDrop.OnListEnd(path)) && data.Some? && l.windowId != data.value.origWindowId ==>
              r == Ok(Some(MoveTabToWindow(data.value.tabId, l.windowId, -1)))
    ensures r.Ok? && r.value.Some? ==> data.Some?
  {
    if |path| == 0 || (!IsTabNode(path[0]) && !SidebarDrop.OnListEnd(path)) then Ok(None)
    else if data.None? then Err(SyntaxError)
    else
      var tabId := data.value.tabId;
      if l.windowId != data.value.origWindowId then Ok(Some(MoveTabToWindow(tabId, l.windowId, -1)))
      else
        var cur := TabById(l, Num(tabId));
        if SidebarDrop.OnListEnd(path) then SidebarDrop.Requested(MoveTabToBottom(cur, q))
        else
          match ListTabIdForEvent(path)
          case Err(e) => Err(e)
          case Ok(dropId) => DropOnTab(l, tabId, dropId, q)
  }

  /** The drop of a tab of the list onto the view whose id parses to
      `dropId`: onto itself nothing happens; across the pinned boundary the
      tab goes to the end (pinned) or the front (unpinned) of its own
      group; within its group it takes the drop target's place. */
  function DropOnTab(l: TabList, tabId: TabId, dropId: JsValue, q: GroupQuery): (r: Result<Option<Request>>)
    ensures dropId == Num(tabId) ==> r == Ok(None)
    ensures r.Ok? && r.value.Some? ==> r.value.value.MoveTab?
  {
    if dropId == Num(tabId) then Ok(None)
    else
      var cur := TabById(l, Num(tabId));
      var drop := TabById(l, dropId);
      if cur.None? || drop.None? then Err(TypeError)
      else if cur.value.pinned != drop.value.pinned then
        if cur.value.pinned then SidebarDrop.Requested(MoveTabToBottom(cur, q))
        else SidebarDrop.Requested(MoveTabToTop(cur, q))
      else
        var curPos := GetPos(l, tabId).value;
        var dropPos := GetPos(l, dropId.n).value;
        Ok(Some(MoveTab(tabId, SidebarDrop.DropIndex(curPos, dropPos, |l.tabs|))))
  }
}
