/** The sidebar's tab list (`TabList` of `src/sidebar/tablist.js`): the map
    of tracked tabs, the document holding their views, the active tab and
    the window the list is bound to, and the handlers the browser's tab
    events run. */
module SidebarTabList {
  import opened Js
  import opened Seqs
  import opened Dom
  import opened Browser
  import opened SidebarTab

  /** Values of the `compactModeMode` preference. */
  const CompactModeOff := 0
  const CompactModeStrict := 2

  /** The height, in pixels, the list assumes for a tab when it decides
      whether the tabs fit without shrinking. */
  const EstimatedTabHeight := 56

  /** State kept outside the tab views: `_filterActive`, the `hasMoreTabs`
      attribute of the "more tabs" element, `_compactModeMode` (a `parseInt`
      result), whether pinned tabs are compact, and whether the tabs are
      shrinked. */
  datatype Display = Display(
    filterActive: bool,
    hasMoreTabs: bool,
    compactModeMode: JsValue,
    compactPins: bool,
    tabsShrinked: bool)

  /** `_tabs`, the document, `_active` (null or a tab id), `_windowId` (null
      until `populate` binds the list) and the display state. */
  datatype TabList = TabList(
    tabs: map<TabId, SideTab>,
    doc: Document,
    active: Option<TabId>,
    windowId: Option<int>,
    display: Display)

  /** The constructor: an empty list reading its compact-mode settings from
      the preferences object. `_compactPins` stores the preference value
      itself; only its truthiness is ever read. */
  function New(prefs: map<string, JsValue>): (l: TabList)
    ensures l.tabs == map[] && Elements(l.doc) == [] && l.active.None? && l.windowId.None?
    ensures l.display.compactModeMode.Num? || l.display.compactModeMode.NaN?
    ensures l.display.compactPins <==> Truthy(Prop(prefs, "compactPins"))
    ensures !l.display.filterActive && !l.display.tabsShrinked
  {
    TabList(map[], Document([], []), None, None,
            Display(false, false, ParseIntValue(Prop(prefs, "compactModeMode")),
                    Truthy(Prop(prefs, "compactPins")), false))
  }

  /** A numeric `compactModeMode` preference is taken as it is; a missing
      one leaves the mode NaN, which counts as the dynamic mode. */
  lemma NewCompactMode(prefs: map<string, JsValue>)
    ensures Prop(prefs, "compactModeMode").Num? ==> New(prefs).display.compactModeMode == Prop(prefs, "compactModeMode")
    ensures "compactModeMode" !in prefs ==> New(prefs).display.compactModeMode == NaN
  {
    if Prop(prefs, "compactModeMode").Num? {
      ParseIntNumber(Prop(prefs, "compactModeMode").n);
    }
    ParseIntNonNumbers();
  }

  /** `_onPrefsChanged`: each preference present in the change set takes
      its new value. */
  function OnPrefsChanged(l: TabList, compactModeMode: Option<JsValue>, compactPins: Option<JsValue>): (r: TabList)
    ensures compactModeMode.Some? ==> r.display.compactModeMode == ParseIntValue(compactModeMode.value)
    ensures compactModeMode.None? ==> r.display.compactModeMode == l.display.compactModeMode
    ensures compactPins.Some? ==> (r.display.compactPins <==> Truthy(compactPins.value))
    ensures compactPins.None? ==> r.display.compactPins == l.display.compactPins
    ensures r.(display := l.display) == l
    ensures r.display.(compactModeMode := l.display.compactModeMode, compactPins := l.display.compactPins) == l.display
  {
    l.(display := l.display.(
      compactModeMode := if compactModeMode.Some? then ParseIntValue(compactModeMode.value) else l.display.compactModeMode,
      compactPins := if compactPins.Some? then Truthy(compactPins.value) else l.display.compactPins))
  }

  // ---------------------------------------------------------------------
  // Lookups

  /** `_checkWindow(tab)`: the tab belongs to the window the list is bound
      to (never true while the list is unbound). */
  predicate InWindow(l: TabList, windowId: int)
  {
    l.windowId == Some(windowId)
  }

  /** The list a tab's view belongs in. */
  function Home(t: SideTab): Container
  {
    if t.pinned then PinnedList else UnpinnedList
  }

  /** `_getPos(tabId)`: undefined (None) for an untracked tab, otherwise the
      index of its view in document order, or -1 when it has none. */
  function GetPos(l: TabList, id: TabId): (r: Option<int>)
    ensures r.None? <==> id !in l.tabs
    ensures r.Some? ==> -1 <= r.value < |Elements(l.doc)|
    ensures r.Some? ==> (r.value == -1 <==> l.tabs[id].id !in Elements(l.doc))
    ensures r.Some? && r.value >= 0 ==> Elements(l.doc)[r.value] == l.tabs[id].id
  {
    if id !in l.tabs then None else Some(IndexOf(Elements(l.doc), l.tabs[id].id))
  }

  // ---------------------------------------------------------------------
  // The active tab

  /** Whether `_active` is truthy: set, and not the id 0. */
  predicate ActiveSet(l: TabList)
  {
    l.active.Some? && l.active.value != 0
  }

  /** `_setActive(tabId)`: an untracked id changes nothing; otherwise the
      previously active tab is deactivated (reading it throws when it is no
      longer tracked) and the new one is activated. */
  function SetActive(l: TabList, id: TabId): (r: Step<TabList>)
    ensures id !in l.tabs ==> r == Step(l, None)
    ensures r.thrown.Some? <==> id in l.tabs && ActiveSet(l) && l.active.value !in l.tabs
    ensures r.thrown.Some? ==> r.state == l && r.thrown == Some(TypeError)
    ensures r.state.tabs.Keys == l.tabs.Keys
    ensures r.thrown.None? && id in l.tabs ==> r.state.active == Some(id) && r.state.tabs[id].view.active
    ensures r.state.(tabs := l.tabs, active := l.active) == l
  {
    if id !in l.tabs then Step(l, None)
    else if ActiveSet(l) && l.active.value !in l.tabs then Step(l, Some(TypeError))
    else
      var tabs := if ActiveSet(l) then l.tabs[l.active.value := UpdateActive(l.tabs[l.active.value], false)] else l.tabs;
      Step(l.(tabs := tabs[id := UpdateActive(tabs[id], true)], active := Some(id)), None)
  }

  /** Every tracked tab is marked active exactly when it is `_active`. */
  predicate ActiveMarks(l: TabList)
  {
    forall k :: k in l.tabs ==> (l.tabs[k].view.active <==> l.active == Some(k))
  }

  /** `_active` is null or a tracked tab with a truthy id. */
  predicate ActiveTracked(l: TabList)
  {
    l.active.Some? ==> l.active.value in l.tabs && l.active.value != 0
  }

  /** Activation keeps at most one tab marked active: the previous one is
      unmarked before the new one is marked. */
  lemma SetActiveMarks(l: TabList, id: TabId)
    requires ActiveMarks(l) && ActiveTracked(l) && id in l.tabs && id != 0
    ensures SetActive(l, id).thrown.None?
    ensures ActiveMarks(SetActive(l, id).state) && ActiveTracked(SetActive(l, id).state)
    ensures SetActive(l, id).state.active == Some(id)
  {
    var r := SetActive(l, id).state;
    forall k | k in r.tabs
      ensures r.tabs[k].view.active <==> r.active == Some(k)
    {
      if k != id && l.active == Some(k) {
        assert r.tabs[k] == UpdateActive(l.tabs[k], false);
      }
    }
  }

  /** Activation changes nothing in a record but its active and "not
      selected since load" marks. */
  lemma SetActiveKeeps(l: TabList, id: TabId)
    ensures forall k :: k in l.tabs ==>
              SetActive(l, id).state.tabs[k].(view := l.tabs[k].view, notSelectedSinceLoad := l.tabs[k].notSelectedSinceLoad) == l.tabs[k]
  {
    if id in l.tabs && !(ActiveSet(l) && l.active.value !in l.tabs) {
      var r := SetActive(l, id).state;
      var tabs := if ActiveSet(l) then l.tabs[l.active.value := UpdateActive(l.tabs[l.active.value], false)] else l.tabs;
      assert r.tabs == tabs[id := UpdateActive(tabs[id], true)];
      forall k | k in l.tabs
        ensures r.tabs[k].(view := l.tabs[k].view, notSelectedSinceLoad := l.tabs[k].notSelectedSinceLoad) == l.tabs[k]
      {
        var t := l.tabs[k];
        if k == id {
          UpdateActiveFrame(t, false);
          UpdateActiveFrame(tabs[k], true);
          assert tabs[k].(view := t.view, notSelectedSinceLoad := t.notSelectedSinceLoad) == t;
          assert r.tabs[k] == UpdateActive(tabs[k], true);
        } else if ActiveSet(l) && k == l.active.value {
          UpdateActiveFrame(t, false);
          assert r.tabs[k] == UpdateActive(t, false);
        } else {
          assert r.tabs[k] == t;
        }
      }
    }
  }

  lemma UpdateActiveFrame(t: SideTab, active: bool)
    ensures UpdateActive(t, active).(view := t.view, notSelectedSinceLoad := t.notSelectedSinceLoad) == t
  {
  }

  // ---------------------------------------------------------------------
  // Positioning

  function SetPosWith(l: TabList, id: TabId, placed: Result<Document>): (r: Step<TabList>)
  {
    match placed
    case Err(e) => Step(l, Some(e))
    case Ok(d) => Step(l.(doc := d), None)
  }

  /** `_setPos(tabId, pos)` with the reference rule of `Dom.PositionAt`: an
      untracked id changes nothing; otherwise the tab's view is placed in
      the list matching its pinned state, and only the document changes. */
  function SetPos(l: TabList, id: TabId, pos: int): (r: Step<TabList>)
    ensures id !in l.tabs ==> r == Step(l, None)
    ensures r.state.(doc := l.doc) == l
    ensures id in l.tabs && r.thrown.None? ==> id in Children(r.state.doc, Home(l.tabs[id]))
    ensures r.thrown.Some? ==> r.state == l
  {
    if id !in l.tabs then Step(l, None)
    else
      PositionAtPlaces(l.doc, Home(l.tabs[id]), id, pos);
      SetPosWith(l, id, PositionAt(l.doc, Home(l.tabs[id]), id, pos))
  }

  /** `_onBrowserTabMoved`: a tab moved forward is placed before the view
      after its target index, so the position passed is `toIndex + 1`. */
  function MovedTarget(fromIndex: int, toIndex: int): (pos: int)
    ensures fromIndex < toIndex ==> pos == toIndex + 1
    ensures fromIndex >= toIndex ==> pos == toIndex
  {
    if fromIndex < toIndex then toIndex + 1 else toIndex
  }

  function OnBrowserTabMoved(l: TabList, id: TabId, fromIndex: int, toIndex: int): (r: Step<TabList>)
    ensures id !in l.tabs ==> r == Step(l, None)
    ensures r.state.(doc := l.doc) == l
  {
    SetPos(l, id, MovedTarget(fromIndex, toIndex))
  }

  // ---------------------------------------------------------------------
  // Positioning as written

  // `_getPos`, `_setPos` and `_closeTabsUnderneath` call
  // `SideTab.getAllTabsViews()`, but the `SideTab` of src/sidebar/tab.js
  // has no such method; only the older src/tab.js defines it, as every tab
  // view in document order. `GetPos`, `SetPos` and `CloseTabsUnderneath`
  // read the views that way; the members below keep the call as written,
  // where calling the missing method throws a TypeError.

  /** `_getPos(tabId)` as written: undefined for an untracked tab, and a
      throw for every tracked one. */
  function GetPosAsWritten(l: TabList, id: TabId): (r: Result<Option<int>>)
    ensures r.Err? <==> id in l.tabs
    ensures r.Err? ==> r.error == TypeError
    ensures r.Ok? ==> r.value == GetPos(l, id)
  {
    if id !in l.tabs then Ok(None) else Err(TypeError)
  }

  /** `_setPos(tabId, pos)` as written: an untracked id changes nothing,
      and for a tracked one the call throws before the view moves. */
  function SetPosAsWritten(l: TabList, id: TabId, pos: int): (r: Step<TabList>)
    ensures r.state == l
    ensures r.thrown.Some? <==> id in l.tabs
    ensures r.thrown.Some? ==> r.thrown == Some(TypeError)
    ensures id !in l.tabs ==> r == SetPos(l, id, pos)
  {
    if id !in l.tabs then Step(l, None) else Step(l, Some(TypeError))
  }

  /** `_onBrowserTabMoved` as written: a tracked tab's move throws and the
      views keep their old order. */
  function OnBrowserTabMovedAsWritten(l: TabList, id: TabId, fromIndex: int, toIndex: int): (r: Step<TabList>)
    ensures r.state == l
    ensures r.thrown.Some? <==> id in l.tabs
  {
    SetPosAsWritten(l, id, MovedTarget(fromIndex, toIndex))
  }

  // ---------------------------------------------------------------------
  // Creation and removal

  /** `__create(tabInfo)`: a fresh record initialised from the tab is stored
      under its id, and made active when the tab is. */
  function Track(l: TabList, info: TabInfo): (r: Step<TabList>)
    ensures info.id in r.state.tabs
    ensures r.state.tabs.Keys == l.tabs.Keys + {info.id}
    ensures r.thrown.Some? ==> r.thrown == Some(TypeError)
    ensures r.thrown.None? ==> r.state.tabs[info.id].pinned == info.pinned
    ensures r.thrown.None? ==> (info.active ==> r.state.active == Some(info.id))
    ensures !info.active ==> r.thrown.None? && r.state.active == l.active && r.state.tabs[info.id] == Init(info)
    ensures r.state.doc == l.doc && r.state.windowId == l.windowId && r.state.display == l.display
  {
    var l' := l.(tabs := l.tabs[info.id := Init(info)]);
    if info.active then SetActive(l', info.id) else Step(l', None)
  }

  /** `_create(tabInfo)`: a tab of another window is ignored; otherwise any
      search is cleared, the tab is tracked and its view placed at
      `tabInfo.index`. */
  function Create(l: TabList, info: TabInfo): (r: Step<TabList>)
    ensures !InWindow(l, info.windowId) ==> r == Step(l, None)
    ensures InWindow(l, info.windowId) ==> info.id in r.state.tabs
    ensures InWindow(l, info.windowId) && r.thrown.None? ==> info.id in Elements(r.state.doc)
    ensures r.state.windowId == l.windowId
  {
    if !InWindow(l, info.windowId) then Step(l, None)
    else
      var s := Track(ClearSearch(l), info);
      if s.thrown.Some? then s
      else
        var r := SetPos(s.state, info.id, info.index);
        ChildInElements(r.state.doc, Home(s.state.tabs[info.id]), info.id);
        r
  }

  /** `_create(tabInfo)` as written: the tab is tracked, then `_setPos`
      throws, so its view never reaches the document. */
  function CreateAsWritten(l: TabList, info: TabInfo): (r: Step<TabList>)
    ensures !InWindow(l, info.windowId) ==> r == Step(l, None)
    ensures InWindow(l, info.windowId) ==> r.thrown == Some(TypeError) && info.id in r.state.tabs
    ensures r.state.doc == l.doc && r.state.windowId == l.windowId
  {
    if !InWindow(l, info.windowId) then Step(l, None)
    else
      var s := Track(ClearSearch(l), info);
      if s.thrown.Some? then s else SetPosAsWritten(s.state, info.id, info.index)
  }

  /** `_remove(tabId)`: `_active` is cleared when it names the tab; a tracked
      tab loses its view and its entry. */
  function Remove(l: TabList, id: TabId): (r: TabList)
    ensures forall k :: k in r.tabs <==> k in l.tabs && k != id
    ensures forall k :: k in r.tabs ==> r.tabs[k] == l.tabs[k]
    ensures l.active == Some(id) ==> r.active.None?
    ensures l.active != Some(id) ==> r.active == l.active
    ensures id in l.tabs ==> id !in Elements(r.doc)
    ensures id !in l.tabs ==> r.doc == l.doc
    ensures r.windowId == l.windowId && r.display == l.display
  {
    var l' := if l.active == Some(id) then l.(active := None) else l;
    if id !in l'.tabs then l'
    else l'.(doc := Detach(l'.doc, id), tabs := l'.tabs - {id})
  }

  // ---------------------------------------------------------------------
  // Updates

  /** `_onTabPinned(sidetab, tab)`: the view is appended to the list of its
      new group and then positioned at the tab's index. */
  function OnTabPinned(l: TabList, tab: TabInfo): (r: Step<TabList>)
    ensures tab.id in l.tabs && r.thrown.None? && l.tabs[tab.id].pinned == tab.pinned ==>
              tab.id in Children(r.state.doc, Home(l.tabs[tab.id]))
    ensures r.state.(doc := l.doc) == l
  {
    var moved := l.(doc := AppendChild(l.doc, if tab.pinned then PinnedList else UnpinnedList, tab.id));
    SetPos(moved, tab.id, tab.index)
  }

  /** `_onBrowserTabUpdated(tabId, changeInfo, tab)` as written: the record
      is updated without the tab, so `onUpdate` throws once it reads the
      tab's icon, and the pinned-state handling after it never runs. */
  function OnBrowserTabUpdatedAsWritten(l: TabList, change: ChangeInfo, tab: TabInfo): (r: Step<TabList>)
    ensures !InWindow(l, tab.windowId) || tab.id !in l.tabs <==> r == Step(l, None)
    ensures r.state.tabs.Keys == l.tabs.Keys
    ensures InWindow(l, tab.windowId) && tab.id in l.tabs ==>
              r.thrown == Some(TypeError) && r.state.doc == l.doc
              && r.state.tabs[tab.id].pinned == l.tabs[tab.id].pinned
  {
    if !InWindow(l, tab.windowId) || tab.id !in l.tabs then Step(l, None)
    else
      var u := OnUpdate(l.tabs[tab.id], change, None);
      Step(l.(tabs := l.tabs[tab.id := u.state]), u.thrown)
  }

  /** The same handler with the tab handed on to `onUpdate`: the record
      takes every change, and a pinned-state change moves the view. */
  function OnBrowserTabUpdated(l: TabList, change: ChangeInfo, tab: TabInfo): (r: Step<TabList>)
    ensures !InWindow(l, tab.windowId) || tab.id !in l.tabs ==> r == Step(l, None)
    ensures r.state.tabs.Keys == l.tabs.Keys && r.state.active == l.active
    ensures InWindow(l, tab.windowId) && tab.id in l.tabs && change.pinned.None? ==>
              r.thrown.None? && r.state.doc == l.doc
    ensures InWindow(l, tab.windowId) && tab.id in l.tabs && r.thrown.None? ==>
              r.state.tabs[tab.id] == OnUpdate(l.tabs[tab.id], change, Some(tab)).state
  {
    if !InWindow(l, tab.windowId) || tab.id !in l.tabs then Step(l, None)
    else
      var u := OnUpdate(l.tabs[tab.id], change, Some(tab));
      var l' := l.(tabs := l.tabs[tab.id := u.state]);
      if change.pinned.Some? then OnTabPinned(l', tab) else Step(l', None)
  }

  // ---------------------------------------------------------------------
  // Search

  /** Whether a tab matches the (normalized) query: its normalized url or
      title contains it. */
  predicate Shows(t: SideTab, q: string)
  {
    Includes(Normalize(t.url), q) || Includes(Normalize(t.title), q)
  }

  /** Every tab shown or hidden according to the query. */
  function FilterTabs(tabs: map<TabId, SideTab>, q: string): (r: map<TabId, SideTab>)
    ensures r.Keys == tabs.Keys
    ensures forall k :: k in r ==> r[k] == UpdateVisibility(tabs[k], Shows(tabs[k], q))
  {
    map k | k in tabs :: UpdateVisibility(tabs[k], Shows(tabs[k], q))
  }

  /** `filter(query)`: every tab is shown exactly when it matches, the
      search counts as active when the query is non-empty, and the "more
      tabs" marker is set exactly when some tab is hidden. */
  function Filter(l: TabList, query: string): (r: TabList)
    ensures r.display.filterActive <==> |query| > 0
    ensures r.tabs.Keys == l.tabs.Keys
    ensures forall k :: k in r.tabs ==> (r.tabs[k].visible <==> Shows(l.tabs[k], Normalize(Some(query))))
    ensures forall k :: k in r.tabs ==> r.tabs[k].(visible := l.tabs[k].visible) == l.tabs[k]
    ensures r.display.hasMoreTabs <==> exists k :: k in r.tabs && !r.tabs[k].visible
    ensures r.doc == l.doc && r.active == l.active && r.windowId == l.windowId
  {
    var tabs := FilterTabs(l.tabs, Normalize(Some(query)));
    l.(tabs := tabs,
       display := l.display.(filterActive := |query| > 0,
                             hasMoreTabs := exists k :: k in tabs && !tabs[k].visible))
  }

  /** `_clearSearch()`: only an active search is reset, through the owner's
      `search("")`, which runs `filter("")`. */
  function ClearSearch(l: TabList): (r: TabList)
    ensures !l.display.filterActive ==> r == l
    ensures l.display.filterActive ==> r == Filter(l, "")
  {
    if l.display.filterActive then Filter(l, "") else l
  }

  /** The empty query shows every tab and clears the marker. */
  lemma FilterEmptyShowsAll(l: TabList)
    ensures forall k :: k in Filter(l, "").tabs ==> Filter(l, "").tabs[k].visible
    ensures !Filter(l, "").display.hasMoreTabs && !Filter(l, "").display.filterActive
  {
    forall k | k in l.tabs
      ensures Shows(l.tabs[k], Normalize(Some("")))
    {
      IncludesEmpty(Normalize(l.tabs[k].url));
    }
  }

  /** Filtering twice with the same query changes nothing more. */
  lemma FilterIdempotent(l: TabList, query: string)
    ensures Filter(Filter(l, query), query) == Filter(l, query)
  {
    FilterTabsIdempotent(l, query);
  }

  lemma FilterTabsIdempotent(l: TabList, query: string)
    ensures Filter(Filter(l, query), query).tabs == Filter(l, query).tabs
  {
    var q := Normalize(Some(query));
    var once := FilterTabs(l.tabs, q);
    forall k | k in once
      ensures FilterTabs(once, q)[k] == once[k]
    {
      assert once[k].url == l.tabs[k].url && once[k].title == l.tabs[k].title;
    }
    assert FilterTabs(once, q) == once;
  }

  /** No tab is hidden unless a search is active. */
  predicate SearchConsistent(l: TabList)
  {
    !l.display.filterActive ==> forall k :: k in l.tabs ==> l.tabs[k].visible
  }

  /** Filtering leaves the list consistent, and clearing the search of a
      consistent list shows every tab. */
  lemma ClearSearchShowsAll(l: TabList, query: string)
    ensures SearchConsistent(Filter(l, query))
    ensures SearchConsistent(l) ==> forall k :: k in ClearSearch(l).tabs ==> ClearSearch(l).tabs[k].visible
    ensures !ClearSearch(l).display.filterActive
  {
    FilterEmptyShowsAll(l);
  }

  // ---------------------------------------------------------------------
  // Closing several tabs

  /** The ids of `ids` whose tabs are visible, in order; reading an id that
      is not tracked throws. */
  function VisibleIds(ids: seq<TabId>, tabs: map<TabId, SideTab>): (r: Result<seq<TabId>>)
    ensures r.Err? <==> exists i :: 0 <= i < |ids| && ids[i] !in tabs
    ensures r.Err? ==> r.error == TypeError
    ensures r.Ok? ==> forall y :: y in r.value <==> y in ids && y in tabs && tabs[y].visible
    ensures r.Ok? ==> |r.value| <= |ids|
  {
    if |ids| == 0 then Ok([])
    else if ids[0] !in tabs then Err(TypeError)
    else
      match VisibleIds(ids[1..], tabs)
      case Err(e) =>
        assert forall i :: 0 <= i < |ids| - 1 ==> ids[1..][i] == ids[i + 1];
        Err(e)
      case Ok(rest) =>
        assert forall i :: 0 <= i < |ids| - 1 ==> ids[1..][i] == ids[i + 1];
        assert forall y :: y in ids <==> y == ids[0] || y in ids[1..];
        Ok(if tabs[ids[0]].visible then [ids[0]] + rest else rest)
  }

  /** `_closeTabsUnderneath(tabId)`: the visible tabs whose views follow the
      tab's view are closed. For an untracked tab `_getPos` is undefined,
      `slice(NaN)` starts at 0, and every visible tab is closed. */
  function CloseTabsUnderneath(l: TabList, id: TabId): (r: Result<Request>)
    ensures r.Ok? ==> r.value.RemoveTabs?
    ensures r.Ok? && GetPos(l, id).Some? ==>
              forall y :: y in r.value.ids <==> y in Elements(l.doc)[GetPos(l, id).value + 1..] && y in l.tabs && l.tabs[y].visible
    ensures r.Ok? && GetPos(l, id).None? ==>
              forall y :: y in r.value.ids <==> y in Elements(l.doc) && y in l.tabs && l.tabs[y].visible
    ensures (forall y :: y in Elements(l.doc) ==> y in l.tabs) ==> r.Ok?
  {
    var pos := GetPos(l, id);
    var start := if pos.Some? then pos.value + 1 else 0;
    var ids := Elements(l.doc);
    assert forall i :: 0 <= i < |ids| - start ==> ids[start..][i] == ids[start + i];
    match VisibleIds(ids[start..], l.tabs)
    case Err(e) => Err(e)
    case Ok(toClose) => Ok(RemoveTabs(toClose))
  }

  /** `_closeTabsUnderneath(tabId)` as written: a tracked tab's `_getPos`
      throws, and for an untracked one the `getAllTabsViews` call right
      after it does, so no tab is ever closed. */
  function CloseTabsUnderneathAsWritten(l: TabList, id: TabId): (r: Result<Request>)
    ensures r.Err? && r.error == TypeError
    ensures id in l.tabs ==> GetPosAsWritten(l, id).Err?
  {
    match GetPosAsWritten(l, id)
    case Err(e) => Err(e)
    case Ok(_) => Err(TypeError)
  }

  /** `_closeAllTabsExcept(tabId)`: every unpinned tracked tab other than the
      given one is closed. */
  function CloseAllTabsExcept(l: TabList, id: TabId): (r: Request)
    ensures r.RemoveTabSet?
    ensures forall k :: k in l.tabs && l.tabs[k].id != id && !l.tabs[k].pinned ==> l.tabs[k].id in r.idSet
    ensures forall y :: y in r.idSet ==> y != id && exists k :: k in l.tabs && l.tabs[k].id == y && !l.tabs[k].pinned
  {
    RemoveTabSet(set k | k in l.tabs && l.tabs[k].id != id && !l.tabs[k].pinned :: l.tabs[k].id)
  }

  /** `canMoveToNewWindow` of the context menu. */
  function CanMoveToNewWindow(l: TabList): (b: bool)
  {
    |l.tabs| > 1
  }

  // ---------------------------------------------------------------------
  // Compact mode

  /** The measurements `__maybeShrinkTabs` reads from the document: the
      spacer's height, the wrapper's height and the pinned list's height. */
  datatype Measures = Measures(spaceLeft: int, wrapperHeight: int, pinnedHeight: int)

  function VisibleCount(l: TabList, pinned: bool): (n: nat)
  {
    |set k | k in l.tabs && l.tabs[k].visible && l.tabs[k].pinned == pinned|
  }

  /** The height the visible tabs would take unshrinked: 56 pixels per
      unpinned tab, and per pinned tab unless pinned tabs are compact, in
      which case the pinned list's own height when it shows any. */
  function EstimatedHeight(l: TabList, m: Measures): int
  {
    VisibleCount(l, false) * EstimatedTabHeight
    + if l.display.compactPins then (if VisibleCount(l, true) > 0 then m.pinnedHeight else 0)
      else VisibleCount(l, true) * EstimatedTabHeight
  }

  /** `__maybeShrinkTabs()`: strict mode always shrinks, mode off never
      does; otherwise the tabs shrink once the spacer has no height left,
      and grow back only when the estimate fits in the wrapper. */
  function MaybeShrinkTabs(l: TabList, m: Measures): (r: TabList)
    ensures l.display.compactModeMode == Num(CompactModeStrict) ==> r.display.tabsShrinked
    ensures l.display.compactModeMode == Num(CompactModeOff) ==> !r.display.tabsShrinked
    ensures r.display.(tabsShrinked := l.display.tabsShrinked) == l.display
    ensures r.(display := l.display) == l
  {
    var mode := l.display.compactModeMode;
    var shrinked :=
      if mode == Num(CompactModeStrict) || mode == Num(CompactModeOff) then mode == Num(CompactModeStrict)
      else if !l.display.tabsShrinked then m.spaceLeft == 0
      else EstimatedHeight(l, m) > m.wrapperHeight;
    l.(display := l.display.(tabsShrinked := shrinked))
  }

  /** In the dynamic mode the decision has hysteresis: unshrinked tabs
      shrink only when no space is left, and shrinked tabs grow back only
      when they are estimated to fit. */
  lemma ShrinkHysteresis(l: TabList, m: Measures)
    requires l.display.compactModeMode != Num(CompactModeStrict) && l.display.compactModeMode != Num(CompactModeOff)
    ensures !l.display.tabsShrinked ==> (MaybeShrinkTabs(l, m).display.tabsShrinked <==> m.spaceLeft == 0)
    ensures l.display.tabsShrinked ==> (!MaybeShrinkTabs(l, m).display.tabsShrinked <==> EstimatedHeight(l, m) <= m.wrapperHeight)
  {
  }

  /** Hiding tabs never makes the estimate grow, so a list that fits keeps
      fitting when a search hides some of its tabs. */
  lemma EstimateMonotone(l: TabList, l': TabList, m: Measures)
    requires l'.display == l.display && m.pinnedHeight >= 0
    requires forall k :: k in l'.tabs && l'.tabs[k].visible ==> k in l.tabs && l.tabs[k].visible && l.tabs[k].pinned == l'.tabs[k].pinned
    ensures EstimatedHeight(l', m) <= EstimatedHeight(l, m)
  {
    VisibleCountMonotone(l, l', false);
    VisibleCountMonotone(l, l', true);
  }

  lemma VisibleCountMonotone(l: TabList, l': TabList, pinned: bool)
    requires forall k :: k in l'.tabs && l'.tabs[k].visible ==> k in l.tabs && l.tabs[k].visible && l.tabs[k].pinned == l'.tabs[k].pinned
    ensures VisibleCount(l', pinned) <= VisibleCount(l, pinned)
  {
    var a := set k | k in l'.tabs && l'.tabs[k].visible && l'.tabs[k].pinned == pinned;
    var b := set k | k in l.tabs && l.tabs[k].visible && l.tabs[k].pinned == pinned;
    forall k | k in a
      ensures k in b
    {
    }
    SubsetCard(a, b);
  }

  lemma SubsetCard(a: set<TabId>, b: set<TabId>)
    requires a <= b
    ensures |a| <= |b|
  {
    assert b == a + (b - a);
  }
}
