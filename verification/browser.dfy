/** The browser side of the mirror: the tab information and change sets the
    `browser.tabs` events deliver, one window's tab strip as the reference
    order the sidebar must follow, and the requests the sidebar sends back
    (which the model emits as values instead of performing). */
module Browser {
  import opened Js
  import opened Seqs
  import opened Dom

  /** The fields of a `tabs.Tab` the sidebar reads. `favIconUrl` may be
      missing; `muted` stands for `mutedInfo.muted`. */
  datatype TabInfo = TabInfo(
    id: TabId,
    windowId: int,
    index: int,
    active: bool,
    pinned: bool,
    hidden: bool,
    title: string,
    url: string,
    audible: bool,
    muted: bool,
    favIconUrl: Option<string>,
    discarded: bool)

  /** The `status` strings of a tab: "loading", "complete", or another. */
  datatype Status = Loading | Complete | OtherStatus

  /** The `changeInfo` of `tabs.onUpdated`: a key is either absent (None)
      or carries the new value. */
  datatype ChangeInfo = ChangeInfo(
    hidden: Option<bool>,
    title: Option<string>,
    url: Option<string>,
    audible: Option<bool>,
    muted: Option<bool>,
    discarded: Option<bool>,
    status: Option<Status>,
    pinned: Option<bool>)

  const NoChange := ChangeInfo(None, None, None, None, None, None, None, None)

  // ---------------------------------------------------------------------
  // One browser window

  /** The tab strip of the window the sidebar is bound to: pinned tabs
      first, then the others, each in strip order, and the active tab. */
  datatype HostWindow = HostWindow(id: int, pinned: seq<TabId>, unpinned: seq<TabId>, active: Option<TabId>)

  /** Every tab of the window in strip order; a tab's `index` is its
      position here. */
  function Strip(h: HostWindow): seq<TabId>
  {
    h.pinned + h.unpinned
  }

  /** Tab ids are unique and positive, and the active tab belongs to the
      window. */
  predicate HostWellFormed(h: HostWindow)
  {
    NoDup(Strip(h))
    && Positive(Strip(h))
    && (h.active.Some? ==> h.active.value in Strip(h))
  }

  predicate Positive(s: seq<TabId>)
  {
    forall i :: 0 <= i < |s| ==> s[i] > 0
  }

  /** The range of strip indexes a tab of the given group may occupy. */
  predicate InGroupRange(h: HostWindow, pinned: bool, index: int)
  {
    if pinned then 0 <= index <= |h.pinned|
    else |h.pinned| <= index <= |Strip(h)|
  }

  /** The browser events the tab list listens to. `Created` also stands for
      `onAttached`, whose listener fetches the tab and hands it to the same
      handler; `Removed` also stands for `onDetached`. */
  datatype Event =
    | Created(tab: TabInfo)
    | Attached(tab: TabInfo)
    | Removed(tabId: TabId)
    | Detached(tabId: TabId)
    | Moved(tabId: TabId, fromIndex: int, toIndex: int)
    | Activated(tabId: TabId)
    | Updated(tabId: TabId, change: ChangeInfo, tab: TabInfo)

  /** Whether an update event describes a tab of this window consistently:
      the tab keeps its group unless `pinned` is in the change set; a tab
      that gets pinned goes last among the pinned tabs, one that gets
      unpinned goes first among the others. */
  predicate ValidUpdate(h: HostWindow, tabId: TabId, change: ChangeInfo, tab: TabInfo)
  {
    tab.id == tabId
    && (tabId in Strip(h) <==> tab.windowId == h.id)
    && (tabId in Strip(h) ==>
          match change.pinned
          case None => tab.pinned == (tabId in h.pinned)
          case Some(p) =>
            p == tab.pinned
            && (p ==> tabId in h.unpinned && tab.index == |h.pinned|)
            && (!p ==> tabId in h.pinned && tab.index == |h.pinned| - 1))
  }

  /** Whether the browser can deliver `e` to a sidebar whose window is in
      state `h`. Events about other windows carry ids this window does not
      hold. */
  predicate ValidEvent(h: HostWindow, e: Event)
  {
    match e
    case Created(t) => ValidArrival(h, t)
    case Attached(t) => ValidArrival(h, t)
    case Removed(_) => true
    case Detached(_) => true
    case Moved(id, from, to) =>
      if id in h.pinned then 0 <= from < |h.pinned| && h.pinned[from] == id && 0 <= to < |h.pinned|
      else if id in h.unpinned then
        |h.pinned| <= from < |Strip(h)| && h.unpinned[from - |h.pinned|] == id
        && |h.pinned| <= to < |Strip(h)|
      else true
    case Activated(_) => true
    case Updated(id, change, tab) => ValidUpdate(h, id, change, tab)
  }

  predicate ValidArrival(h: HostWindow, t: TabInfo)
  {
    t.id > 0 && t.id !in Strip(h)
    && (t.windowId == h.id ==> InGroupRange(h, t.pinned, t.index))
  }

  /** The window after the browser applied the change `e` reports. */
  function HostAfter(h: HostWindow, e: Event): HostWindow
    requires ValidEvent(h, e)
  {
    match e
    case Created(t) => Arrive(h, t)
    case Attached(t) => Arrive(h, t)
    case Removed(id) => Depart(h, id)
    case Detached(id) => Depart(h, id)
    case Moved(id, from, to) =>
      if id !in Strip(h) then h
      else if id in h.pinned then h.(pinned := Move(h.pinned, from, to))
      else h.(unpinned := Move(h.unpinned, from - |h.pinned|, to - |h.pinned|))
    case Activated(id) =>
      if id in Strip(h) then h.(active := Some(id)) else h
    case Updated(id, change, tab) =>
      if id !in Strip(h) || change.pinned.None? then h
      else if change.pinned.value then
        h.(pinned := h.pinned + [id], unpinned := Without(h.unpinned, id))
      else
        h.(pinned := Without(h.pinned, id), unpinned := [id] + h.unpinned)
  }

  function Arrive(h: HostWindow, t: TabInfo): HostWindow
    requires ValidArrival(h, t)
  {
    if t.windowId != h.id then h
    else
      var h' :=
        if t.pinned then h.(pinned := InsertAt(h.pinned, t.index, t.id))
        else h.(unpinned := InsertAt(h.unpinned, t.index - |h.pinned|, t.id));
      if t.active then h'.(active := Some(t.id)) else h'
  }

  /** The arriving tab joins its group and nothing else changes group. */
  lemma ArriveMembers(h: HostWindow, t: TabInfo)
    requires ValidArrival(h, t) && t.windowId == h.id
    ensures forall y :: y in Strip(Arrive(h, t)) <==> y in Strip(h) || y == t.id
    ensures forall y :: y in Arrive(h, t).pinned <==> y in h.pinned || (y == t.id && t.pinned)
    ensures Arrive(h, t).active == if t.active then Some(t.id) else h.active
  {
    if t.pinned {
      InsertAtMembers(h.pinned, t.index, t.id);
    } else {
      InsertAtMembers(h.unpinned, t.index - |h.pinned|, t.id);
    }
  }

  function Depart(h: HostWindow, id: TabId): HostWindow
  {
    h.(pinned := Without(h.pinned, id), unpinned := Without(h.unpinned, id),
       active := if h.active == Some(id) then None else h.active)
  }

  /** A well-formed window stays well-formed under every event it can
      receive. */
  lemma HostAfterWellFormed(h: HostWindow, e: Event)
    requires HostWellFormed(h) && ValidEvent(h, e)
    ensures HostWellFormed(HostAfter(h, e))
  {
    match e
    case Created(t) => ArriveWellFormed(h, t);
    case Attached(t) => ArriveWellFormed(h, t);
    case Removed(id) => DepartWellFormed(h, id);
    case Detached(id) => DepartWellFormed(h, id);
    case Moved(id, from, to) =>
      if id in h.pinned {
        MovePinnedWellFormed(h, from, to);
      } else if id in h.unpinned {
        MoveUnpinnedWellFormed(h, from - |h.pinned|, to - |h.pinned|);
      }
    case Activated(id) =>
    case Updated(id, change, tab) =>
      if id in Strip(h) && change.pinned.Some? {
        if change.pinned.value {
          PinWellFormed(h, id);
        } else {
          UnpinWellFormed(h, id);
        }
      }
  }

  lemma MovePinnedWellFormed(h: HostWindow, from: int, to: int)
    requires HostWellFormed(h) && 0 <= from < |h.pinned| && 0 <= to < |h.pinned|
    ensures HostWellFormed(h.(pinned := Move(h.pinned, from, to)))
  {
    NoDupSplit(h.pinned, h.unpinned);
    MoveKeeps(h.pinned, from, to);
    Regroup(h, Move(h.pinned, from, to), h.unpinned);
  }

  lemma MoveUnpinnedWellFormed(h: HostWindow, from: int, to: int)
    requires HostWellFormed(h) && 0 <= from < |h.unpinned| && 0 <= to < |h.unpinned|
    ensures HostWellFormed(h.(unpinned := Move(h.unpinned, from, to)))
  {
    NoDupSplit(h.pinned, h.unpinned);
    MoveKeeps(h.unpinned, from, to);
    Regroup(h, h.pinned, Move(h.unpinned, from, to));
  }

  lemma PinWellFormed(h: HostWindow, id: TabId)
    requires HostWellFormed(h) && id in h.unpinned
    ensures HostWellFormed(h.(pinned := h.pinned + [id], unpinned := Without(h.unpinned, id)))
  {
    NoDupSplit(h.pinned, h.unpinned);
    NoDupWithout(h.unpinned, id);
    var p := h.pinned + [id];
    assert NoDup(p);
    Regroup(h, p, Without(h.unpinned, id));
  }

  lemma UnpinWellFormed(h: HostWindow, id: TabId)
    requires HostWellFormed(h) && id in h.pinned
    ensures HostWellFormed(h.(pinned := Without(h.pinned, id), unpinned := [id] + h.unpinned))
  {
    NoDupSplit(h.pinned, h.unpinned);
    NoDupWithout(h.pinned, id);
    var u := [id] + h.unpinned;
    assert NoDup(u);
    Regroup(h, Without(h.pinned, id), u);
  }

  lemma MoveKeeps(s: seq<TabId>, from: int, to: int)
    requires NoDup(s) && 0 <= from < |s| && 0 <= to < |s|
    ensures NoDup(Move(s, from, to))
    ensures forall y :: y in Move(s, from, to) <==> y in s
  {
    NoDupRemove(s, from);
    RemoveAtMembers(s, from);
    NoDupInsert(RemoveAt(s, from), to, s[from]);
    InsertAtMembers(RemoveAt(s, from), to, s[from]);
  }

  lemma PositiveSubset(a: seq<TabId>, b: seq<TabId>)
    requires Positive(b) && forall y :: y in a ==> y in b
    ensures Positive(a)
  {
    forall i | 0 <= i < |a|
      ensures a[i] > 0
    {
      assert a[i] in a;
      var j :| 0 <= j < |b| && b[j] == a[i];
    }
  }

  /** New groups built from the tabs of `h`, without repeats and with no tab
      in both, form a well-formed window. */
  lemma Regroup(h: HostWindow, p: seq<TabId>, u: seq<TabId>)
    requires HostWellFormed(h) && NoDup(p) && NoDup(u)
    requires forall y :: y in p ==> y !in u
    requires forall y :: y in p + u <==> y in Strip(h)
    ensures HostWellFormed(h.(pinned := p, unpinned := u))
  {
    NoDupAppend(p, u);
    PositiveSubset(p + u, Strip(h));
  }

  lemma ArriveWellFormed(h: HostWindow, t: TabInfo)
    requires HostWellFormed(h) && ValidArrival(h, t)
    ensures HostWellFormed(Arrive(h, t))
  {
    if t.windowId == h.id {
      NoDupSplit(h.pinned, h.unpinned);
      var p, u;
      if t.pinned {
        p, u := InsertAt(h.pinned, t.index, t.id), h.unpinned;
        NoDupInsert(h.pinned, t.index, t.id);
        InsertAtMembers(h.pinned, t.index, t.id);
      } else {
        p, u := h.pinned, InsertAt(h.unpinned, t.index - |h.pinned|, t.id);
        NoDupInsert(h.unpinned, t.index - |h.pinned|, t.id);
        InsertAtMembers(h.unpinned, t.index - |h.pinned|, t.id);
      }
      NoDupAppend(p, u);
      PositiveSubset(p + u, Strip(h) + [t.id]);
    }
  }

  lemma DepartWellFormed(h: HostWindow, id: TabId)
    requires HostWellFormed(h)
    ensures HostWellFormed(Depart(h, id))
  {
    NoDupSplit(h.pinned, h.unpinned);
    var p := Without(h.pinned, id);
    var u := Without(h.unpinned, id);
    NoDupWithout(h.pinned, id);
    NoDupWithout(h.unpinned, id);
    NoDupAppend(p, u);
    PositiveSubset(p + u, Strip(h));
  }

  /** The events form a run the browser can deliver, starting from `h`. */
  ghost predicate ValidRun(h: HostWindow, es: seq<Event>)
    decreases |es|
  {
    |es| == 0 || (ValidEvent(h, es[0]) && ValidRun(HostAfter(h, es[0]), es[1..]))
  }

  /** The window after a run of events. */
  ghost function HostRun(h: HostWindow, es: seq<Event>): HostWindow
    requires ValidRun(h, es)
    decreases |es|
  {
    if |es| == 0 then h else HostRun(HostAfter(h, es[0]), es[1..])
  }

  // ---------------------------------------------------------------------
  // Requests the sidebar sends to the browser

  /** The `browser.tabs` calls the modelled code makes, as values. */
  datatype Request =
    /** `tabs.move(tabId, {index})` inside the tab's own window. */
    | MoveTab(tabId: TabId, index: int)
    /** `tabs.move(tabId, {windowId, index})`; the window id is null while
        the list is not bound to a window. */
    | MoveTabToWindow(tabId: TabId, windowId: Option<int>, index: int)
    /** `tabs.remove(ids)` with an ordered list of ids. */
    | RemoveTabs(ids: seq<TabId>)
    /** `tabs.remove(ids)` where only the set of ids is modelled. */
    | RemoveTabSet(idSet: set<TabId>)
    /** `tabs.create(props)`; `props` maps each own key to its value. */
    | CreateTab(props: map<string, JsValue>)
    /** A call of the owner's `openTab(props)` callback. */
    | OpenTab(props: map<string, JsValue>)
}
