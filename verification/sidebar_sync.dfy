/** The sidebar's list against the browser window it mirrors: what it means
    for the list to mirror the window, and that every event the browser can
    deliver keeps the list mirroring the window the event leaves behind. */
module SidebarSync {
  import opened Js
  import opened Seqs
  import opened Dom
  import opened Browser
  import opened SidebarTab
  import opened SidebarTabList
  import opened SidebarDrop

  /** Exactly the window's tabs are tracked, each under its own id and with
      the window's pinned state. */
  ghost predicate Tracked(l: TabList, h: HostWindow)
  {
    (forall k :: k in l.tabs <==> k in Strip(h))
    && (forall k :: k in l.tabs ==> l.tabs[k].id == k && l.tabs[k].pinned == (k in h.pinned))
  }

  /** The list mirrors the window: it is bound to it, each list of views
      holds its group in strip order, it tracks exactly its tabs, and it
      marks the same tab active. */
  ghost predicate Mirrors(l: TabList, h: HostWindow)
  {
    l.doc == Document(h.pinned, h.unpinned) && Agrees(l, h)
  }

  /** Everything of `Mirrors` but the document. */
  ghost predicate Agrees(l: TabList, h: HostWindow)
  {
    l.windowId == Some(h.id) && Tracked(l, h) && l.active == h.active && ActiveMarks(l)
  }

  /** The handler the list runs for each browser event. */
  function Handle(l: TabList, e: Event): Step<TabList>
  {
    match e
    case Created(t) => Create(l, t)
    case Attached(t) => Create(l, t)
    case Removed(id) => Step(Remove(l, id), None)
    case Detached(id) => Step(Remove(l, id), None)
    case Moved(id, from, to) => OnBrowserTabMoved(l, id, from, to)
    case Activated(id) => SetActive(l, id)
    case Updated(_, change, tab) => OnBrowserTabUpdated(l, change, tab)
  }

  /** The same dispatch with the handlers as written: the update handler
      that drops the tab, and the creation and move handlers whose
      `_setPos` calls the missing `getAllTabsViews`. */
  function HandleAsWritten(l: TabList, e: Event): Step<TabList>
  {
    match e
    case Created(t) => CreateAsWritten(l, t)
    case Attached(t) => CreateAsWritten(l, t)
    case Moved(id, from, to) => OnBrowserTabMovedAsWritten(l, id, from, to)
    case Updated(_, change, tab) => OnBrowserTabUpdatedAsWritten(l, change, tab)
    case _ => Handle(l, e)
  }

  lemma PositiveMember(s: seq<TabId>, x: TabId)
    requires Positive(s) && x in s
    ensures x > 0
  {
    var i :| 0 <= i < |s| && s[i] == x;
  }

  /** The active tab of a mirrored window is tracked and has a truthy id. */
  lemma MirrorsActive(l: TabList, h: HostWindow)
    requires HostWellFormed(h) && Agrees(l, h)
    ensures ActiveTracked(l)
  {
    if l.active.Some? {
      PositiveMember(Strip(h), l.active.value);
    }
  }

  // ---------------------------------------------------------------------
  // Removal

  lemma RemoveMirrors(l: TabList, h: HostWindow, id: TabId)
    requires HostWellFormed(h) && Mirrors(l, h)
    ensures Mirrors(Remove(l, id), Depart(h, id))
  {
    if id in Strip(h) {
      RemoveTrackedMirrors(l, h, id);
    } else {
      WithoutAbsent(h.pinned, id);
      WithoutAbsent(h.unpinned, id);
      assert Depart(h, id) == h;
    }
  }

  lemma RemoveTrackedMirrors(l: TabList, h: HostWindow, id: TabId)
    requires HostWellFormed(h) && Mirrors(l, h) && id in Strip(h)
    ensures Mirrors(Remove(l, id), Depart(h, id))
  {
    var r := Remove(l, id);
    var h' := Depart(h, id);
    assert r.doc == Detach(l.doc, id);
    forall k
      ensures k in r.tabs <==> k in Strip(h')
    {
      assert k in Strip(h') <==> k in h'.pinned || k in h'.unpinned;
    }
  }

  // ---------------------------------------------------------------------
  // Activation

  lemma ActivateMirrors(l: TabList, h: HostWindow, id: TabId)
    requires HostWellFormed(h) && Mirrors(l, h)
    ensures SetActive(l, id).thrown.None?
    ensures Mirrors(SetActive(l, id).state, HostAfter(h, Activated(id)))
  {
    if id in Strip(h) {
      PositiveMember(Strip(h), id);
      MirrorsActive(l, h);
      SetActiveMarks(l, id);
      SetActiveKeeps(l, id);
    }
  }

  // ---------------------------------------------------------------------
  // Moves

  lemma MoveMirrors(l: TabList, h: HostWindow, id: TabId, from: int, to: int)
    requires HostWellFormed(h) && Mirrors(l, h) && ValidEvent(h, Moved(id, from, to))
    ensures OnBrowserTabMoved(l, id, from, to).thrown.None?
    ensures Mirrors(OnBrowserTabMoved(l, id, from, to).state, HostAfter(h, Moved(id, from, to)))
  {
    if id in h.pinned {
      MovePinnedMirrors(l, h, id, from, to);
    } else if id in h.unpinned {
      MoveUnpinnedMirrors(l, h, id, from, to);
    } else {
      assert id !in l.tabs;
    }
  }

  /** A pinned tab moved inside the pinned group. */
  lemma MovePinnedMirrors(l: TabList, h: HostWindow, id: TabId, from: int, to: int)
    requires HostWellFormed(h) && Mirrors(l, h)
    requires 0 <= from < |h.pinned| && h.pinned[from] == id && 0 <= to < |h.pinned|
    ensures ValidEvent(h, Moved(id, from, to))
    ensures OnBrowserTabMoved(l, id, from, to).thrown.None?
    ensures Mirrors(OnBrowserTabMoved(l, id, from, to).state, HostAfter(h, Moved(id, from, to)))
  {
    TrackedTab(l, h, id);
    NoDupSplit(h.pinned, h.unpinned);
    MovedStep(l, PinnedList, id, from, to, from, to);
    var h' := h.(pinned := Move(h.pinned, from, to));
    MovedHost(h, id, from, to);
    Reordered(l, h, HostAfter(h, Moved(id, from, to)), OnBrowserTabMoved(l, id, from, to).state);
  }

  /** An unpinned tab moved inside the unpinned group; the strip indexes
      are offset by the pinned tabs. */
  lemma MoveUnpinnedMirrors(l: TabList, h: HostWindow, id: TabId, from: int, to: int)
    requires HostWellFormed(h) && Mirrors(l, h) && id !in h.pinned
    requires |h.pinned| <= from < |Strip(h)| && h.unpinned[from - |h.pinned|] == id
    requires |h.pinned| <= to < |Strip(h)|
    ensures ValidEvent(h, Moved(id, from, to))
    ensures OnBrowserTabMoved(l, id, from, to).thrown.None?
    ensures Mirrors(OnBrowserTabMoved(l, id, from, to).state, HostAfter(h, Moved(id, from, to)))
  {
    UnpinnedMoveSlots(h, id, from, to);
    TrackedTab(l, h, id);
    UnpinnedMoveStep(l, h, id, from, to);
    MovedHost(h, id, from, to);
    Reordered(l, h, HostAfter(h, Moved(id, from, to)), OnBrowserTabMoved(l, id, from, to).state);
  }

  /** The list's side of an unpinned move: the tab's view goes to the
      same place in the unpinned group. */
  lemma UnpinnedMoveStep(l: TabList, h: HostWindow, id: TabId, from: int, to: int)
    requires l.doc == Document(h.pinned, h.unpinned) && NoDup(Strip(h))
    requires id in l.tabs && !l.tabs[id].pinned
    requires 0 <= from - |h.pinned| < |h.unpinned| && 0 <= to - |h.pinned| < |h.unpinned|
    requires h.unpinned[from - |h.pinned|] == id
    ensures OnBrowserTabMoved(l, id, from, to)
         == Step(l.(doc := Document(h.pinned, Move(h.unpinned, from - |h.pinned|, to - |h.pinned|))), None)
  {
    var f, t := from - |h.pinned|, to - |h.pinned|;
    assert WellFormed(l.doc) && Children(l.doc, UnpinnedList) == h.unpinned;
    var moved := Move(h.unpinned, f, t);
    assert SetChildren(l.doc, UnpinnedList, moved) == Document(h.pinned, moved);
    MovedStep(l, UnpinnedList, id, from, to, f, t);
  }

  /** The group indexes of an unpinned move, and the facts about the
      window it needs. */
  lemma UnpinnedMoveSlots(h: HostWindow, id: TabId, from: int, to: int)
    requires HostWellFormed(h) && id !in h.pinned
    requires |h.pinned| <= from < |Strip(h)| && h.unpinned[from - |h.pinned|] == id
    requires |h.pinned| <= to < |Strip(h)|
    ensures 0 <= from - |h.pinned| < |h.unpinned| && 0 <= to - |h.pinned| < |h.unpinned|
    ensures id in h.unpinned && id in Strip(h) && ValidEvent(h, Moved(id, from, to))
    ensures NoDup(Strip(h)) && NoDup(h.unpinned)
  {
    NoDupSplit(h.pinned, h.unpinned);
  }

  /** The window after a move of one of its tabs: one group reordered,
      the same tabs in each group. */
  lemma MovedHost(h: HostWindow, id: TabId, from: int, to: int)
    requires HostWellFormed(h) && ValidEvent(h, Moved(id, from, to)) && id in Strip(h)
    ensures var h' := HostAfter(h, Moved(id, from, to));
            h'.id == h.id && h'.active == h.active
            && (forall y :: y in h'.pinned <==> y in h.pinned)
            && (forall y :: y in h'.unpinned <==> y in h.unpinned)
    ensures id in h.pinned ==> HostAfter(h, Moved(id, from, to)) == h.(pinned := Move(h.pinned, from, to))
    ensures id !in h.pinned ==>
              HostAfter(h, Moved(id, from, to)) == h.(unpinned := Move(h.unpinned, from - |h.pinned|, to - |h.pinned|))
  {
    NoDupSplit(h.pinned, h.unpinned);
    if id in h.pinned {
      MoveKeeps(h.pinned, from, to);
    } else {
      MoveKeeps(h.unpinned, from - |h.pinned|, to - |h.pinned|);
    }
  }

  // ---------------------------------------------------------------------
  // Facts about mirrored lists

  /** A tab of the window is tracked, with the window's pinned state, and its
      view is in the document. */
  lemma TrackedTab(l: TabList, h: HostWindow, x: TabId)
    requires Mirrors(l, h) && x in Strip(h)
    ensures x in l.tabs && l.tabs[x].id == x && l.tabs[x].pinned == (x in h.pinned)
    ensures Elements(l.doc) == Strip(h) && WellFormed(l.doc) == NoDup(Strip(h))
  {
  }

  /** When the window's groups are only reordered, a list that takes the
      new order for its document mirrors the new window. */
  lemma Reordered(l: TabList, h: HostWindow, h': HostWindow, l': TabList)
    requires Mirrors(l, h)
    requires h'.id == h.id && h'.active == h.active
    requires forall y :: y in h'.pinned <==> y in h.pinned
    requires forall y :: y in h'.unpinned <==> y in h.unpinned
    requires l' == l.(doc := Document(h'.pinned, h'.unpinned))
    ensures Mirrors(l', h')
  {
  }

  // ---------------------------------------------------------------------
  // Creation

  lemma CreateMirrors(l: TabList, h: HostWindow, t: TabInfo)
    requires HostWellFormed(h) && Mirrors(l, h) && ValidArrival(h, t)
    ensures Create(l, t).thrown.None?
    ensures Mirrors(Create(l, t).state, Arrive(h, t))
  {
    if t.windowId == h.id {
      CreateHereMirrors(l, h, t);
    }
  }

  lemma CreateHereMirrors(l: TabList, h: HostWindow, t: TabInfo)
    requires HostWellFormed(h) && Mirrors(l, h) && ValidArrival(h, t) && t.windowId == h.id
    ensures Create(l, t).thrown.None?
    ensures Mirrors(Create(l, t).state, Arrive(h, t))
  {
    ClearSearchMirrors(l, h);
    var l1 := ClearSearch(l);
    var s := Track(l1, t);
    TrackAgrees(l1, h, t);
    PlaceArrival(s.state, h, t);
    var h' := Arrive(h, t);
    assert Create(l, t) == SetPos(s.state, t.id, t.index);
    Redrawn(s.state, h');
  }

  /** A list that agrees with a window and takes its groups for the document
      mirrors it. */
  lemma Redrawn(l: TabList, h: HostWindow)
    requires Agrees(l, h)
    ensures Mirrors(l.(doc := Document(h.pinned, h.unpinned)), h)
  {
  }

  /** Clearing the search only changes which tabs are shown. */
  lemma ClearSearchMirrors(l: TabList, h: HostWindow)
    requires Mirrors(l, h)
    ensures Mirrors(ClearSearch(l), h)
  {
    if l.display.filterActive {
      var r := Filter(l, "");
      forall k | k in r.tabs
        ensures r.tabs[k].id == l.tabs[k].id && r.tabs[k].pinned == l.tabs[k].pinned
        ensures r.tabs[k].view.active == l.tabs[k].view.active
      {
        assert r.tabs[k].(visible := l.tabs[k].visible) == l.tabs[k];
      }
      Relabelled(l, r, h);
    }
  }

  /** After `__create`, the list agrees with the window the tab arrived in,
      its document still being the old one. */
  lemma TrackAgrees(l: TabList, h: HostWindow, t: TabInfo)
    requires HostWellFormed(h) && Agrees(l, h) && ValidArrival(h, t) && t.windowId == h.id
    ensures Track(l, t).thrown.None?
    ensures Agrees(Track(l, t).state, Arrive(h, t)) && Track(l, t).state.doc == l.doc
  {
    var h' := Arrive(h, t);
    ArriveMembers(h, t);
    var l' := l.(tabs := l.tabs[t.id := Init(t)]);
    assert Tracked(l', h');
    assert ActiveMarks(l');
    if t.active {
      MirrorsActive(l, h);
      SetActiveMarks(l', t.id);
      SetActiveKeeps(l', t.id);
    }
  }

  /** `_setPos` puts the new tab's view where the window put the tab. */
  lemma PlaceArrival(l: TabList, h: HostWindow, t: TabInfo)
    requires HostWellFormed(h) && ValidArrival(h, t) && t.windowId == h.id
    requires l.doc == Document(h.pinned, h.unpinned)
    requires t.id in l.tabs && l.tabs[t.id].pinned == t.pinned
    ensures SetPos(l, t.id, t.index) == Step(l.(doc := Document(Arrive(h, t).pinned, Arrive(h, t).unpinned)), None)
  {
    var h' := ArriveGrouped(h, t);
    var d := Document(h'.pinned, h'.unpinned);
    if t.pinned {
      PlacePinnedArrival(l, h, t);
    } else {
      PlaceUnpinnedArrival(l, h, t);
    }
    SetPosPlaced(l, t.id, t.index, d);
  }

  lemma PlacePinnedArrival(l: TabList, h: HostWindow, t: TabInfo)
    requires HostWellFormed(h) && ValidArrival(h, t) && t.windowId == h.id && t.pinned
    requires l.doc == Document(h.pinned, h.unpinned)
    requires t.id in l.tabs && l.tabs[t.id].pinned
    ensures PositionAt(l.doc, Home(l.tabs[t.id]), t.id, t.index) == Ok(Document(InsertAt(h.pinned, t.index, t.id), h.unpinned))
  {
    assert Home(l.tabs[t.id]) == PinnedList;
    assert WellFormed(l.doc) && t.id !in Elements(l.doc) by {
      assert Elements(l.doc) == Strip(h);
    }
    PlaceNewPinned(l.doc, t.id, t.index);
  }

  /** An arriving tab of the window is not in the window's document yet,
      and its index lies in its group's range. */
  lemma ArrivalSlot(h: HostWindow, t: TabInfo)
    requires HostWellFormed(h) && ValidArrival(h, t) && t.windowId == h.id
    ensures WellFormed(Document(h.pinned, h.unpinned)) && t.id !in Elements(Document(h.pinned, h.unpinned))
    ensures t.pinned ==> 0 <= t.index <= |h.pinned|
    ensures !t.pinned ==> |h.pinned| <= t.index <= |h.pinned| + |h.unpinned|
  {
    assert Elements(Document(h.pinned, h.unpinned)) == Strip(h);
  }

  lemma PlaceUnpinnedArrival(l: TabList, h: HostWindow, t: TabInfo)
    requires HostWellFormed(h) && ValidArrival(h, t) && t.windowId == h.id && !t.pinned
    requires l.doc == Document(h.pinned, h.unpinned)
    requires t.id in l.tabs && !l.tabs[t.id].pinned
    ensures PositionAt(l.doc, Home(l.tabs[t.id]), t.id, t.index)
         == Ok(Document(h.pinned, InsertAt(h.unpinned, t.index - |h.pinned|, t.id)))
  {
    assert Home(l.tabs[t.id]) == UnpinnedList;
    ArrivalSlot(h, t);
    PlaceNewUnpinned(l.doc, t.id, t.index);
  }

  /** A successful placement is all `_setPos` does. */
  lemma SetPosPlaced(l: TabList, id: TabId, pos: int, d: Document)
    requires id in l.tabs && PositionAt(l.doc, Home(l.tabs[id]), id, pos) == Ok(d)
    ensures SetPos(l, id, pos) == Step(l.(doc := d), None)
  {
  }

  /** A tab moved from position `f` to `t` of its own group, as the
      browser's strip indexes `from` and `to` report it, ends up at `t`. */
  lemma MovedStep(l: TabList, c: Container, id: TabId, from: int, to: int, f: int, t: int)
    requires WellFormed(l.doc) && id in l.tabs && Home(l.tabs[id]) == c
    requires 0 <= f < |Children(l.doc, c)| && 0 <= t < |Children(l.doc, c)| && Children(l.doc, c)[f] == id
    requires from - f == Offset(l.doc, c) && to - t == Offset(l.doc, c)
    ensures OnBrowserTabMoved(l, id, from, to)
         == Step(l.(doc := SetChildren(l.doc, c, Move(Children(l.doc, c), f, t))), None)
  {
    PlaceMoved(l.doc, c, f, t, MovedTarget(from, to));
    SetPosPlaced(l, id, MovedTarget(from, to), SetChildren(l.doc, c, Move(Children(l.doc, c), f, t)));
  }

  /** The arrival's groups, without the active mark. */
  function ArriveGrouped(h: HostWindow, t: TabInfo): (h': HostWindow)
    requires ValidArrival(h, t) && t.windowId == h.id
    ensures h'.pinned == Arrive(h, t).pinned && h'.unpinned == Arrive(h, t).unpinned
  {
    if t.pinned then h.(pinned := InsertAt(h.pinned, t.index, t.id))
    else h.(unpinned := InsertAt(h.unpinned, t.index - |h.pinned|, t.id))
  }

  // ---------------------------------------------------------------------
  // Updates

  lemma UpdateMirrors(l: TabList, h: HostWindow, id: TabId, change: ChangeInfo, tab: TabInfo)
    requires HostWellFormed(h) && Mirrors(l, h) && ValidUpdate(h, id, change, tab)
    ensures OnBrowserTabUpdated(l, change, tab).thrown.None?
    ensures Mirrors(OnBrowserTabUpdated(l, change, tab).state, HostAfter(h, Updated(id, change, tab)))
  {
    if id !in Strip(h) {
      assert !InWindow(l, tab.windowId);
    } else if change.pinned.None? {
      UpdateRecordMirrors(l, h, change, tab);
    } else if change.pinned.value {
      PinMirrors(l, h, change, tab);
    } else {
      UnpinMirrors(l, h, change, tab);
    }
  }

  /** A change set without a pinned state change only rewrites the record. */
  lemma UpdateRecordMirrors(l: TabList, h: HostWindow, change: ChangeInfo, tab: TabInfo)
    requires Mirrors(l, h) && tab.windowId == h.id && tab.id in Strip(h) && change.pinned.None?
    ensures OnBrowserTabUpdated(l, change, tab).thrown.None?
    ensures Mirrors(OnBrowserTabUpdated(l, change, tab).state, h)
  {
    TrackedTab(l, h, tab.id);
    var rec := OnUpdate(l.tabs[tab.id], change, Some(tab)).state;
    OnUpdateKeepsIdentity(l.tabs[tab.id], change, tab);
    var r := l.(tabs := l.tabs[tab.id := rec]);
    assert OnBrowserTabUpdated(l, change, tab) == Step(r, None);
    Relabelled(l, r, h);
  }

  /** Pinning: the view is appended to the pinned list, which is where the
      browser puts the tab (at the end of the pinned tabs). */
  lemma PinMirrors(l: TabList, h: HostWindow, change: ChangeInfo, tab: TabInfo)
    requires HostWellFormed(h) && Mirrors(l, h) && tab.windowId == h.id
    requires change.pinned == Some(true) && tab.pinned && tab.id in h.unpinned && tab.index == |h.pinned|
    ensures OnBrowserTabUpdated(l, change, tab).thrown.None?
    ensures Mirrors(OnBrowserTabUpdated(l, change, tab).state,
                    h.(pinned := h.pinned + [tab.id], unpinned := Without(h.unpinned, tab.id)))
  {
    var id := tab.id;
    TrackedTab(l, h, id);
    NoDupSplit(h.pinned, h.unpinned);
    var rec := OnUpdate(l.tabs[id], change, Some(tab)).state;
    OnUpdateApplies(l.tabs[id], change, tab);
    OnUpdateKeepsIdentity(l.tabs[id], change, tab);
    var h' := h.(pinned := h.pinned + [id], unpinned := Without(h.unpinned, id));
    var d' := Document(h'.pinned, h'.unpinned);
    WithoutAbsent(h.pinned, id);
    assert AppendChild(l.doc, PinnedList, id) == d';
    PinWellFormed(h, id);
    PlaceMoved(d', PinnedList, |h.pinned|, |h.pinned|, |h.pinned|);
    MoveInPlace(h'.pinned, |h.pinned|);
    var moved := l.(tabs := l.tabs[id := rec], doc := d');
    assert Home(rec) == PinnedList;
    SetPosPlaced(moved, id, tab.index, d');
    assert OnBrowserTabUpdated(l, change, tab) == SetPos(moved, id, tab.index);
    Regrouped(l, h, h', id, rec);
  }

  /** Unpinning: the view is appended to the unpinned list and then placed at
      the tab's index, the first of the unpinned tabs. */
  lemma UnpinMirrors(l: TabList, h: HostWindow, change: ChangeInfo, tab: TabInfo)
    requires HostWellFormed(h) && Mirrors(l, h) && tab.windowId == h.id
    requires change.pinned == Some(false) && !tab.pinned && tab.id in h.pinned && tab.index == |h.pinned| - 1
    ensures OnBrowserTabUpdated(l, change, tab).thrown.None?
    ensures Mirrors(OnBrowserTabUpdated(l, change, tab).state,
                    h.(pinned := Without(h.pinned, tab.id), unpinned := [tab.id] + h.unpinned))
  {
    var id := tab.id;
    TrackedTab(l, h, id);
    NoDupSplit(h.pinned, h.unpinned);
    var rec := OnUpdate(l.tabs[id], change, Some(tab)).state;
    OnUpdateApplies(l.tabs[id], change, tab);
    OnUpdateKeepsIdentity(l.tabs[id], change, tab);
    var h' := h.(pinned := Without(h.pinned, id), unpinned := [id] + h.unpinned);
    var appended := Document(h'.pinned, h.unpinned + [id]);
    WithoutAbsent(h.unpinned, id);
    assert AppendChild(l.doc, UnpinnedList, id) == appended;
    UnpinAppendedWellFormed(h, id);
    UnpinIndex(h, id);
    PlaceMoved(appended, UnpinnedList, |h.unpinned|, 0, tab.index);
    MoveLastToFront(h.unpinned, id);
    var d' := Document(h'.pinned, h'.unpinned);
    var moved := l.(tabs := l.tabs[id := rec], doc := appended);
    assert Home(rec) == UnpinnedList;
    SetPosPlaced(moved, id, tab.index, d');
    assert OnBrowserTabUpdated(l, change, tab) == SetPos(moved, id, tab.index);
    Regrouped(l, h, h', id, rec);
  }

  lemma UnpinAppendedWellFormed(h: HostWindow, id: TabId)
    requires HostWellFormed(h) && id in h.pinned
    ensures WellFormed(Document(Without(h.pinned, id), h.unpinned + [id]))
  {
    var w := Without(h.pinned, id);
    UnpinWellFormed(h, id);
    NoDupSplit(w, [id] + h.unpinned);
    NoDupRotate(id, h.unpinned);
    NoDupAppend(w, h.unpinned + [id]);
  }

  /** Without the unpinned tab, the pinned tabs number one fewer. */
  lemma UnpinIndex(h: HostWindow, id: TabId)
    requires HostWellFormed(h) && id in h.pinned
    ensures |Without(h.pinned, id)| == |h.pinned| - 1
  {
    NoDupSplit(h.pinned, h.unpinned);
    var k := IndexOf(h.pinned, id);
    WithoutAt(h.pinned, k);
  }

  // ---------------------------------------------------------------------
  // Every event, and every run of events

  /** Each event the browser can deliver is handled without an exception
      and leaves the list mirroring the window the event leaves behind. */
  lemma HandleMirrors(l: TabList, h: HostWindow, e: Event)
    requires HostWellFormed(h) && ValidEvent(h, e) && Mirrors(l, h)
    ensures Handle(l, e).thrown.None?
    ensures Mirrors(Handle(l, e).state, HostAfter(h, e))
  {
    match e
    case Created(t) => CreateMirrors(l, h, t);
    case Attached(t) => CreateMirrors(l, h, t);
    case Removed(id) => RemoveMirrors(l, h, id);
    case Detached(id) => RemoveMirrors(l, h, id);
    case Moved(id, from, to) => MoveMirrors(l, h, id, from, to);
    case Activated(id) => ActivateMirrors(l, h, id);
    case Updated(id, change, tab) => UpdateMirrors(l, h, id, change, tab);
  }

  /** The list after handling each event in turn; an exception ends the
      run. */
  function Run(l: TabList, es: seq<Event>): Step<TabList>
    decreases |es|
  {
    if |es| == 0 then Step(l, None)
    else
      var s := Handle(l, es[0]);
      if s.thrown.Some? then s else Run(s.state, es[1..])
  }

  /** A list that mirrors its window keeps mirroring it through any run of
      events, and no handler throws on the way. */
  lemma {:induction false} RunMirrors(l: TabList, h: HostWindow, es: seq<Event>)
    requires HostWellFormed(h) && ValidRun(h, es) && Mirrors(l, h)
    ensures Run(l, es).thrown.None?
    ensures Mirrors(Run(l, es).state, HostRun(h, es))
    decreases |es|
  {
    if |es| > 0 {
      HandleMirrors(l, h, es[0]);
      HostAfterWellFormed(h, es[0]);
      RunMirrors(Handle(l, es[0]).state, HostAfter(h, es[0]), es[1..]);
    }
  }

  /** The update handler as written throws on every update of a tab of the
      window, and when the update pins or unpins the tab the view stays in
      its old list, so the list stops mirroring the window. */
  lemma UpdateAsWrittenDiverges(l: TabList, h: HostWindow, id: TabId, change: ChangeInfo, tab: TabInfo)
    requires HostWellFormed(h) && Mirrors(l, h) && ValidUpdate(h, id, change, tab) && id in Strip(h)
    ensures HandleAsWritten(l, Updated(id, change, tab)).thrown == Some(TypeError)
    ensures change.pinned.Some? ==> !Mirrors(HandleAsWritten(l, Updated(id, change, tab)).state, HostAfter(h, Updated(id, change, tab)))
  {
    var r := HandleAsWritten(l, Updated(id, change, tab)).state;
    assert r.doc == l.doc;
    if change.pinned.Some? {
      var h' := HostAfter(h, Updated(id, change, tab));
      if change.pinned.value {
        assert |h'.pinned| != |h.pinned|;
      } else {
        assert id !in h'.pinned;
      }
    }
  }

  // ---------------------------------------------------------------------
  // Commands on a mirrored list

  /** `_getPos` of a tab of the window is its index in the tab strip. */
  lemma GetPosMirrors(l: TabList, h: HostWindow, x: TabId)
    requires HostWellFormed(h) && Mirrors(l, h) && x in Strip(h)
    ensures GetPos(l, x) == Some(IndexOf(Strip(h), x))
    ensures 0 <= IndexOf(Strip(h), x) < |Strip(h)| && Strip(h)[IndexOf(Strip(h), x)] == x
  {
    TrackedTab(l, h, x);
  }

  /** The list tracks as many tabs as the window holds. */
  lemma TabCount(l: TabList, h: HostWindow)
    requires HostWellFormed(h) && Mirrors(l, h)
    ensures |l.tabs| == |Strip(h)|
  {
    assert l.tabs.Keys == Members(Strip(h));
    MembersCard(Strip(h));
  }

  /** A tab dragged onto another tab of its group goes to the drop target's
      index in the strip. */
  lemma DropInGroupMirrors(l: TabList, h: HostWindow, path: seq<Node>, dragged: DraggedTab, y: TabId)
    requires HostWellFormed(h) && Mirrors(l, h)
    requires dragged.origWindowId == l.windowId && !OnListEnd(path) && EventTabId(path) == Ok(Num(y))
    requires dragged.tabId in Strip(h) && y in Strip(h) && y != dragged.tabId
    requires dragged.tabId in h.pinned <==> y in h.pinned
    ensures HandleDroppedTab(l, path, dragged, h) == Ok(Some(MoveTab(dragged.tabId, IndexOf(Strip(h), y))))
  {
    var x := dragged.tabId;
    TrackedTab(l, h, x);
    TrackedTab(l, h, y);
    assert TabById(l, Num(x)) == Some(l.tabs[x]) && TabById(l, Num(y)) == Some(l.tabs[y]);
    GetPosMirrors(l, h, x);
    GetPosMirrors(l, h, y);
    TabCount(l, h);
    var cur := GetPos(l, x).value;
    var drop := GetPos(l, y).value;
    assert HandleDroppedTab(l, path, dragged, h) == Ok(Some(MoveTab(x, DropIndex(cur, drop, |l.tabs|))));
  }

  /** A tab dragged onto a tab of the other group goes to the boundary
      between the groups: a pinned tab to the end of the pinned tabs, an
      unpinned one to the front of the unpinned tabs. */
  lemma DropAcrossGroupsMirrors(l: TabList, h: HostWindow, path: seq<Node>, dragged: DraggedTab, y: TabId)
    requires HostWellFormed(h) && Mirrors(l, h)
    requires dragged.origWindowId == l.windowId && !OnListEnd(path) && EventTabId(path) == Ok(Num(y))
    requires dragged.tabId in Strip(h) && y in Strip(h)
    requires dragged.tabId in h.pinned <==> y !in h.pinned
    ensures HandleDroppedTab(l, path, dragged, h) == Ok(Some(MoveTab(dragged.tabId, |h.pinned|)))
  {
    var x := dragged.tabId;
    TrackedTab(l, h, x);
    TrackedTab(l, h, y);
    assert TabById(l, Num(x)) == Some(l.tabs[x]) && TabById(l, Num(y)) == Some(l.tabs[y]);
    if x in h.pinned {
      assert HandleDroppedTab(l, path, dragged, h) == Requested(MoveTabToBottom(Some(l.tabs[x]), h));
    } else {
      assert HandleDroppedTab(l, path, dragged, h) == Requested(MoveTabToTop(Some(l.tabs[x]), h));
    }
  }

  /** "Close tabs after": the visible tabs after the tab in the strip. */
  lemma CloseTabsUnderneathMirrors(l: TabList, h: HostWindow, x: TabId)
    requires HostWellFormed(h) && Mirrors(l, h) && x in Strip(h)
    ensures CloseTabsUnderneath(l, x).Ok?
    ensures forall y :: y in CloseTabsUnderneath(l, x).value.ids <==>
              y in Strip(h)[IndexOf(Strip(h), x) + 1..] && l.tabs[y].visible
  {
    GetPosMirrors(l, h, x);
  }

  /** "Close other tabs": exactly the window's unpinned tabs but the given
      one. */
  lemma CloseAllTabsExceptMirrors(l: TabList, h: HostWindow, x: TabId)
    requires HostWellFormed(h) && Mirrors(l, h)
    ensures forall y :: y in CloseAllTabsExcept(l, x).idSet <==> y in h.unpinned && y != x
  {
    var r := CloseAllTabsExcept(l, x);
    forall y
      ensures y in r.idSet <==> y in h.unpinned && y != x
    {
      if y in r.idSet {
        var k :| k in l.tabs && l.tabs[k].id == y && !l.tabs[k].pinned;
        assert k == y;
      }
      if y in h.unpinned && y != x {
        NoDupSplit(h.pinned, h.unpinned);
        TrackedTab(l, h, y);
      }
    }
  }

  // ---------------------------------------------------------------------
  // Facts about mirrored lists (continued)

  /** A list whose records change in nothing the mirror looks at still
      mirrors the window. */
  lemma Relabelled(l: TabList, r: TabList, h: HostWindow)
    requires Mirrors(l, h)
    requires r.doc == l.doc && r.active == l.active && r.windowId == l.windowId && r.tabs.Keys == l.tabs.Keys
    requires forall k :: k in r.tabs ==> r.tabs[k].id == l.tabs[k].id && r.tabs[k].pinned == l.tabs[k].pinned
    requires forall k :: k in r.tabs ==> r.tabs[k].view.active == l.tabs[k].view.active
    ensures Mirrors(r, h)
  {
  }

  /** When one tab changes group and no tab joins or leaves, a list whose
      record for it follows the change, and whose document takes the new
      groups, mirrors the new window. */
  lemma Regrouped(l: TabList, h: HostWindow, h': HostWindow, x: TabId, rec: SideTab)
    requires Mirrors(l, h) && x in Strip(h)
    requires h'.id == h.id && h'.active == h.active
    requires forall y :: y in Strip(h') <==> y in Strip(h)
    requires forall y :: y != x ==> (y in h'.pinned <==> y in h.pinned)
    requires rec.id == x && rec.pinned == (x in h'.pinned) && rec.view.active == l.tabs[x].view.active
    ensures Mirrors(l.(tabs := l.tabs[x := rec], doc := Document(h'.pinned, h'.unpinned)), h')
  {
  }

  // ---------------------------------------------------------------------
  // The missing `getAllTabsViews`

  /** As written, a tab created in the window is tracked but its view never
      reaches the document, so the list stops mirroring the window; reading
      the views in document order keeps the mirror. */
  lemma CreateAsWrittenLosesView(l: TabList, h: HostWindow, t: TabInfo)
    requires HostWellFormed(h) && Mirrors(l, h) && ValidArrival(h, t) && t.windowId == h.id
    ensures HandleAsWritten(l, Created(t)).thrown == Some(TypeError)
    ensures var r := HandleAsWritten(l, Created(t)).state;
            t.id in r.tabs && t.id !in Elements(r.doc)
    ensures !Mirrors(HandleAsWritten(l, Created(t)).state, HostAfter(h, Created(t)))
    ensures Handle(l, Created(t)).thrown.None?
    ensures Mirrors(Handle(l, Created(t)).state, HostAfter(h, Created(t)))
  {
    CreateMirrors(l, h, t);
    var r := HandleAsWritten(l, Created(t)).state;
    assert Elements(r.doc) == Strip(h);
    ArriveMembers(h, t);
    assert t.id in Strip(Arrive(h, t));
  }

  /** As written, moving a tab of the window throws and leaves the views
      in their old order. */
  lemma MoveAsWrittenThrows(l: TabList, h: HostWindow, id: TabId, from: int, to: int)
    requires Mirrors(l, h) && id in Strip(h)
    ensures HandleAsWritten(l, Moved(id, from, to)) == Step(l, Some(TypeError))
  {
  }

  // ---------------------------------------------------------------------
  // Hidden tabs

  /** The ids of `ids` whose records are not hidden, in order. The tests of
      the tab positions expect exactly these to have views, in strip order
      (src/test/tabs-position.test.js:7-12). */
  function Unhidden(ids: seq<TabId>, tabs: map<TabId, SideTab>): (r: seq<TabId>)
    ensures forall y :: y in r <==> y in ids && !(y in tabs && tabs[y].hidden)
    ensures |r| <= |ids|
  {
    if |ids| == 0 then []
    else (if ids[0] in tabs && tabs[ids[0]].hidden then [] else [ids[0]]) + Unhidden(ids[1..], tabs)
  }

  lemma {:induction false} UnhiddenAppend(a: seq<TabId>, b: seq<TabId>, tabs: map<TabId, SideTab>)
    ensures Unhidden(a + b, tabs) == Unhidden(a, tabs) + Unhidden(b, tabs)
  {
    if |a| == 0 {
      assert a + b == b;
    } else {
      assert (a + b)[1..] == a[1..] + b;
      UnhiddenAppend(a[1..], b, tabs);
    }
  }

  /** As written, hiding a tab only records the flag (src/sidebar/tab.js:61-62)
      and nothing detaches its view: even with the update handler corrected,
      the hidden tab keeps its place in the document, which then holds more
      than the unhidden tabs. */
  lemma HiddenKeepsView(l: TabList, h: HostWindow, id: TabId, change: ChangeInfo, tab: TabInfo)
    requires HostWellFormed(h) && Mirrors(l, h) && ValidUpdate(h, id, change, tab)
    requires id in Strip(h) && change.hidden == Some(true)
    ensures var r := Handle(l, Updated(id, change, tab)).state;
            id in r.tabs && r.tabs[id].hidden && id in Elements(r.doc)
            && Elements(r.doc) != Unhidden(Elements(r.doc), r.tabs)
  {
    HandleMirrors(l, h, Updated(id, change, tab));
    OnUpdateApplies(l.tabs[id], change, tab);
    var r := Handle(l, Updated(id, change, tab)).state;
    assert id in r.tabs;
    assert id !in Unhidden(Elements(r.doc), r.tabs);
  }

  /** The evidently intended treatment of hidden tabs: their views leave the
      document, and the other views keep their order. */
  function DetachHidden(l: TabList): (r: TabList)
    ensures r.(doc := l.doc) == l
    ensures forall k :: k in Elements(r.doc) <==> k in Elements(l.doc) && !(k in l.tabs && l.tabs[k].hidden)
  {
    l.(doc := Document(Unhidden(l.doc.pinned, l.tabs), Unhidden(l.doc.unpinned, l.tabs)))
  }

  /** With hidden views detached, a mirrored list's document holds exactly
      the window's unhidden tabs, in strip order. */
  lemma DetachHiddenMeetsTests(l: TabList, h: HostWindow)
    requires Mirrors(l, h)
    ensures Elements(DetachHidden(l).doc) == Unhidden(Strip(h), l.tabs)
    ensures forall k :: k in l.tabs ==> (k in Elements(DetachHidden(l).doc) <==> !l.tabs[k].hidden)
  {
    UnhiddenAppend(h.pinned, h.unpinned, l.tabs);
  }

  /** After hiding a tab of a mirrored window, detaching hidden views takes
      that tab's view out and leaves the window's unhidden tabs in strip
      order. */
  lemma HideDetachesView(l: TabList, h: HostWindow, id: TabId, change: ChangeInfo, tab: TabInfo)
    requires HostWellFormed(h) && Mirrors(l, h) && ValidUpdate(h, id, change, tab)
    requires id in Strip(h) && change.hidden == Some(true)
    ensures var r := DetachHidden(Handle(l, Updated(id, change, tab)).state);
            id !in Elements(r.doc)
            && Elements(r.doc) == Unhidden(Strip(HostAfter(h, Updated(id, change, tab))), r.tabs)
  {
    HandleMirrors(l, h, Updated(id, change, tab));
    OnUpdateApplies(l.tabs[id], change, tab);
    var s := Handle(l, Updated(id, change, tab)).state;
    DetachHiddenMeetsTests(s, HostAfter(h, Updated(id, change, tab)));
    assert id in s.tabs && s.tabs[id].hidden;
  }
}
