/** Drag and drop in the sidebar's tab list (`_onDrop`,
    `_handleDroppedTabCenterTab`, `_findMozURL`, `_moveTabToBottom` and
    `_moveTabToTop` of `src/sidebar/tablist.js`). Each handler yields the
    request it sends to the browser, if any, or the exception it raises. */
module SidebarDrop {
  import opened Js
  import opened Dom
  import opened Browser
  import opened SidebarTab
  import opened SidebarTabList

  /** The `text/x-tabcenter-tab` payload a drag from the sidebar carries,
      decoded: the dragged tab and the window it was dragged from. */
  datatype DraggedTab = DraggedTab(tabId: int, origWindowId: Option<int>)

  /** The drag data the drop handler reads: the sidebar's own payload if
      present, the `text/x-moz-url-data` string ("" when absent), and a
      bookmark's `text/x-moz-place` record, decoded, given by its `uri`
      (None when the record has none). */
  datatype DataTransfer = DataTransfer(tab: Option<DraggedTab>, urlData: string, place: Option<Option<string>>)

  /** Whether the drop target is the spacer below the lists or the "more
      tabs" element. */
  predicate OnListEnd(path: seq<Node>)
  {
    |path| > 0 && (path[0].role == Spacer || path[0].role == MoreTabs)
  }

  /** `_getTabById`: the record of a tracked tab. */
  function TabById(l: TabList, id: JsValue): (r: Option<SideTab>)
    ensures r.Some? <==> id.Num? && id.n in l.tabs
    ensures r.Some? ==> r.value == l.tabs[id.n]
  {
    if id.Num? && id.n in l.tabs then Some(l.tabs[id.n]) else None
  }

  /** The indexes `tabs.query({pinned, windowId})` reports for the window
      the list is bound to: those of its pinned tabs, or of the others, in
      strip order. */
  function GroupIndexes(h: HostWindow, pinned: bool): (r: seq<int>)
    ensures pinned ==> |r| == |h.pinned| && forall i :: 0 <= i < |r| ==> r[i] == i
    ensures !pinned ==> |r| == |h.unpinned| && forall i :: 0 <= i < |r| ==> r[i] == |h.pinned| + i
  {
    if pinned then seq(|h.pinned|, i => i) else seq(|h.unpinned|, i => |h.pinned| + i)
  }

  /** `_moveTabToBottom(tab)`: the tab is moved just past the last tab of its
      group. A missing tab, or a group the query finds empty, throws. */
  function MoveTabToBottom(tab: Option<SideTab>, h: HostWindow): (r: Result<Request>)
    ensures tab.None? ==> r == Err(TypeError)
    ensures tab.Some? && tab.value.pinned ==>
              r == if |h.pinned| > 0 then Ok(MoveTab(tab.value.id, |h.pinned|)) else Err(TypeError)
    ensures tab.Some? && !tab.value.pinned ==>
              r == if |h.unpinned| > 0 then Ok(MoveTab(tab.value.id, |Strip(h)|)) else Err(TypeError)
  {
    if tab.None? then Err(TypeError)
    else
      var same := GroupIndexes(h, tab.value.pinned);
      if |same| == 0 then Err(TypeError)
      else Ok(MoveTab(tab.value.id, same[|same| - 1] + 1))
  }

  /** `_moveTabToTop(tab)`: the tab is moved to the index of the first tab
      of its group. */
  function MoveTabToTop(tab: Option<SideTab>, h: HostWindow): (r: Result<Request>)
    ensures tab.None? ==> r == Err(TypeError)
    ensures tab.Some? && tab.value.pinned ==>
              r == if |h.pinned| > 0 then Ok(MoveTab(tab.value.id, 0)) else Err(TypeError)
    ensures tab.Some? && !tab.value.pinned ==>
              r == if |h.unpinned| > 0 then Ok(MoveTab(tab.value.id, |h.pinned|)) else Err(TypeError)
  {
    if tab.None? then Err(TypeError)
    else
      var same := GroupIndexes(h, tab.value.pinned);
      if |same| == 0 then Err(TypeError)
      else Ok(MoveTab(tab.value.id, same[0]))
  }

  function Requested(r: Result<Request>): Result<Option<Request>>
  {
    match r
    case Err(e) => Err(e)
    case Ok(q) => Ok(Some(q))
  }

  /** Where a tab dropped on another tab of its group goes: onto the drop
      target's index when it comes from before it, clamped to the number of
      tabs, and otherwise onto that index, clamped at 0. */
  function DropIndex(curPos: int, dropPos: int, size: int): (p: int)
    ensures curPos < dropPos ==> p == if dropPos < size then dropPos else size
    ensures curPos >= dropPos ==> p == if dropPos > 0 then dropPos else 0
  {
    if curPos < dropPos then (if size < dropPos then size else dropPos)
    else (if 0 > dropPos then 0 else dropPos)
  }

  /** `_handleDroppedTabCenterTab(e, tab)`: a tab from another window is
      moved to the end of this one; a tab dropped on itself stays; a tab
      dropped across the pinned boundary goes to the nearest end of its own
      group; any other tab goes to the drop target's position. */
  function HandleDroppedTab(l: TabList, path: seq<Node>, dragged: DraggedTab, h: HostWindow): (r: Result<Option<Request>>)
    ensures l.windowId != dragged.origWindowId ==> r == Ok(Some(MoveTabToWindow(dragged.tabId, l.windowId, -1)))
    ensures l.windowId == dragged.origWindowId && OnListEnd(path) ==>
              r == Requested(MoveTabToBottom(TabById(l, Num(dragged.tabId)), h))
    ensures l.windowId == dragged.origWindowId && !OnListEnd(path) && EventTabId(path) == Ok(Num(dragged.tabId)) ==>
              r == Ok(None)
    ensures r.Ok? && r.value.Some? && r.value.value.MoveTab? ==> r.value.value.index >= 0
  {
    if l.windowId != dragged.origWindowId then Ok(Some(MoveTabToWindow(dragged.tabId, l.windowId, -1)))
    else
      var cur := TabById(l, Num(dragged.tabId));
      if OnListEnd(path) then Requested(MoveTabToBottom(cur, h))
      else
        match EventTabId(path)
        case Err(e) => Err(e)
        case Ok(dropId) =>
          if dropId == Num(dragged.tabId) then Ok(None)
          else
            var drop := TabById(l, dropId);
            if cur.None? || drop.None? then Err(TypeError)
            else if cur.value.pinned != drop.value.pinned then
              if cur.value.pinned then Requested(MoveTabToBottom(cur, h)) else Requested(MoveTabToTop(cur, h))
            else
              var curPos := GetPos(l, dragged.tabId).value;
              var dropPos := GetPos(l, dropId.n).value;
              Ok(Some(MoveTab(dragged.tabId, DropIndex(curPos, dropPos, |l.tabs|))))
  }

  /** `_findMozURL(dataTransfer)`: a dragged link's url, else a dragged
      bookmark's uri, else nothing. */
  function FindMozURL(dt: DataTransfer): (r: Option<string>)
    ensures dt.urlData != "" ==> r == Some(dt.urlData)
    ensures dt.urlData == "" && dt.place.Some? ==> r == dt.place.value
    ensures dt.urlData == "" && dt.place.None? ==> r.None?
  {
    if dt.urlData != "" then Some(dt.urlData)
    else if dt.place.Some? then dt.place.value
    else None
  }

  /** The value of `_windowId` as a JavaScript value. */
  function WindowValue(w: Option<int>): JsValue
  {
    if w.Some? then Num(w.value) else Null
  }

  /** `_onDrop(e)`: drops outside the tabs, the spacer and the "more tabs"
      element are ignored; a tab from the sidebar is handled as above; a
      link or bookmark is opened in this window; anything else is
      ignored. */
  function OnDrop(l: TabList, path: seq<Node>, dt: DataTransfer, h: HostWindow): (r: Result<Option<Request>>)
    ensures !IsTabEvent(path, false) && !OnListEnd(path) ==> r == Ok(None)
    ensures (IsTabEvent(path, false) || OnListEnd(path)) && dt.tab.Some? ==> r == HandleDroppedTab(l, path, dt.tab.value, h)
    ensures (IsTabEvent(path, false) || OnListEnd(path)) && dt.tab.None? ==>
              r == if NonEmpty(FindMozURL(dt))
                   then Ok(Some(OpenTab(map["url" := Str(FindMozURL(dt).value), "windowId" := WindowValue(l.windowId)])))
                   else Ok(None)
  {
    if !IsTabEvent(path, false) && !OnListEnd(path) then Ok(None)
    else if dt.tab.Some? then HandleDroppedTab(l, path, dt.tab.value, h)
    else
      var url := FindMozURL(dt);
      if !NonEmpty(url) then Ok(None)
      else Ok(Some(OpenTab(map["url" := Str(url.value), "windowId" := WindowValue(l.windowId)])))
  }
}
