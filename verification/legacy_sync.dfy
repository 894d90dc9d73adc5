/** What the older tab list guarantees about the window it is bound to: its
    one list of views follows the tab strip (pinned tabs first), and its
    records agree with the browser's on ids, pinned state and the active
    tab, after every browser event other than a pin change, after any run
    of such events, and after populating. */
module LegacySync {
  import opened Js
  import opened Seqs
  import opened Dom
  import opened Browser
  import opened LegacyTab
  import opened LegacyTabList
  import SidebarTabList
  import SidebarDrop
  import SidebarPopulate
  import SidebarSync

  /** The records agree with the window: exactly its tabs are tracked, each
      under its own id with its pinned state, `active` is the window's
      active tab and only that tab's view is marked active. */
  ghost predicate Agrees(l: TabList, h: HostWindow)
  {
    l.windowId == Some(h.id)
    && (forall k :: k in l.tabs <==> k in Strip(h))
    && (forall k :: k in l.tabs ==>
          l.tabs[k].id == k && l.tabs[k].pinned == (k in h.pinned) && (l.tabs[k].active <==> l.active == Some(k)))
    && l.active == h.active
  }

  /** The list mirrors the window: the views follow the strip. */
  ghost predicate Mirrors(l: TabList, h: HostWindow)
  {
    l.view == Strip(h) && Agrees(l, h)
  }

  /** The listener the older list registers for each browser event. */
  function Handle(l: TabList, e: Event): Step<TabList>
  {
    match e
    case Created(t) => LegacyTabList.Create(l, t)
    case Attached(t) => LegacyTabList.Create(l, t)
    case Removed(id) => Step(Remove(l, id), None)
    case Detached(id) => Step(Remove(l, id), None)
    case Moved(id, from, to) => OnBrowserTabMoved(l, id, from, to)
    case Activated(id) => SetActive(l, id)
    case Updated(id, change, tab) => Step(OnBrowserTabUpdated(l, change, tab), None)
  }

  /** An update that pins or unpins a tab of the window. */
  predicate PinChange(h: HostWindow, e: Event)
  {
    e.Updated? && e.tabId in Strip(h) && e.change.pinned.Some?
  }

  // ---------------------------------------------------------------------
  // Steps that keep the records in agreement

  lemma ClearSearchAgrees(l: TabList, h: HostWindow)
    requires Agrees(l, h)
    ensures Agrees(ClearSearch(l), h) && ClearSearch(l).view == l.view
  {
  }

  /** Replacing a record by a copy with the same id, pinned state and
      active mark keeps the agreement. */
  lemma RetouchAgrees(l: TabList, h: HostWindow, tab: TabInfo, t: SideTab)
    requires Agrees(l, h) && Finds(l, tab)
    requires t.id == l.tabs[tab.id].id && t.pinned == l.tabs[tab.id].pinned && t.active == l.tabs[tab.id].active
    ensures Agrees(Retouch(l, tab, t), h) && Retouch(l, tab, t).view == l.view
  {
  }

  /** Activating a tab of the window marks it and unmarks the previous
      one. */
  lemma ActivateAgrees(l: TabList, h: HostWindow, id: TabId)
    requires HostWellFormed(h) && Agrees(l, h) && id in Strip(h)
    ensures !StaleActive(l)
    ensures Agrees(Activate(l, id), h.(active := Some(id))) && Activate(l, id).view == l.view
  {
    var r := Activate(l, id);
    var h' := h.(active := Some(id));
    forall k | k in r.tabs
      ensures r.tabs[k].id == k && r.tabs[k].pinned == (k in h'.pinned) && (r.tabs[k].active <==> r.active == Some(k))
    {
      if k == id {
        assert r.tabs[k] == l.tabs[k].(active := true);
      } else if l.active == Some(k) {
        SidebarSync.PositiveMember(Strip(h), k);
        assert r.tabs[k] == l.tabs[k].(active := false);
      } else {
        assert r.tabs[k] == l.tabs[k];
      }
    }
  }

  // ---------------------------------------------------------------------
  // Creation

  /** The tab strip after an arrival is the old strip with the tab inserted
      at its index. */
  lemma ArriveStrip(h: HostWindow, t: TabInfo)
    requires ValidArrival(h, t) && t.windowId == h.id
    ensures Strip(Arrive(h, t)) == InsertAt(Strip(h), t.index, t.id)
  {
    if t.pinned {
      InsertFront(h.pinned, h.unpinned, t.index, t.id);
    } else {
      InsertBack(h.pinned, h.unpinned, t.index - |h.pinned|, t.id);
    }
  }

  /** A view appended after the strip and placed at index `i` lands
      there. */
  lemma PlaceAppended(s: seq<TabId>, x: TabId, i: int)
    requires NoDup(s) && x !in s && 0 <= i <= |s|
    ensures Place(s + [x], x, i) == Ok(InsertAt(s, i, x))
  {
    var v := s + [x];
    var d := AsDocument(v);
    NoDupAppend(s, [x]);
    assert Elements(d) == v;
    PlaceAgrees(v, x, i);
    PlaceMoved(d, UnpinnedList, |s|, i, i);
    assert RemoveAt(v, |s|) == s;
  }

  /** A view inside the list, moved as the browser reports, lands where
      the browser put the tab. */
  lemma PlaceMovedView(s: seq<TabId>, from: int, to: int)
    requires NoDup(s) && 0 <= from < |s| && 0 <= to < |s|
    ensures Place(s, s[from], SidebarTabList.MovedTarget(from, to)) == Ok(Move(s, from, to))
  {
    var d := AsDocument(s);
    var pos := SidebarTabList.MovedTarget(from, to);
    assert Elements(d) == s && WellFormed(d);
    assert Offset(d, UnpinnedList) == 0 && Children(d, UnpinnedList) == s;
    PlaceMoved(d, UnpinnedList, from, to, pos);
    PlaceAgrees(s, s[from], pos);
  }

  /** Up to the activation, `create` tracks the tab and places its view as
      the arrival of an inactive tab. */
  lemma CreatePlaced(l: TabList, h: HostWindow, t: TabInfo)
    requires HostWellFormed(h) && Mirrors(l, h) && ValidArrival(h, t) && t.windowId == h.id
    ensures var s := SetPos(Tracked(l, t), t.id, t.index);
            s.thrown.None? && Mirrors(s.state, Arrive(h, t.(active := false)))
  {
    var t' := t.(active := false);
    var l2 := Tracked(l, t);
    WithoutAbsent(Strip(h), t.id);
    assert l2.view == Strip(h) + [t.id];
    PlaceAppended(Strip(h), t.id, t.index);
    var v := InsertAt(Strip(h), t.index, t.id);
    assert SetPos(l2, t.id, t.index) == Step(l2.(view := v), None);
    ArriveStrip(h, t');
    TrackedAgrees(l, h, t, v);
  }

  /** The records `create` tracks agree with the arrival of the tab,
      inactive, whatever the views. */
  lemma TrackedAgrees(l: TabList, h: HostWindow, t: TabInfo, v: seq<TabId>)
    requires HostWellFormed(h) && Agrees(l, h) && ValidArrival(h, t) && t.windowId == h.id
    ensures Agrees(Tracked(l, t).(view := v), Arrive(h, t.(active := false)))
  {
    var t' := t.(active := false);
    ClearSearchAgrees(l, h);
    ArriveMembers(h, t');
    var hp := Arrive(h, t');
    var l3 := Tracked(l, t).(view := v);
    assert hp.active == h.active;
    forall k | k in l3.tabs
      ensures l3.tabs[k].id == k && l3.tabs[k].pinned == (k in hp.pinned) && (l3.tabs[k].active <==> l3.active == Some(k))
    {
      if k == t.id {
        assert t.id !in h.pinned;
      }
    }
  }

  /** After the activation, the list mirrors the window the tab arrived
      in. */
  lemma CreateSettled(l: TabList, h: HostWindow, t: TabInfo)
    requires HostWellFormed(h) && Mirrors(l, h) && ValidArrival(h, t) && t.windowId == h.id
    ensures Settled(l, t).thrown.None? && Mirrors(Settled(l, t).state, Arrive(h, t))
  {
    CreatePlaced(l, h, t);
    var s := SetPos(Tracked(l, t), t.id, t.index);
    if t.active {
      assert Settled(l, t) == SetActive(s.state, t.id);
      ActivateArrived(s.state, h, t);
    } else {
      assert Settled(l, t) == s;
      assert Arrive(h, t) == Arrive(h, t.(active := false));
    }
  }

  /** Activating a tab that arrived inactive gives the arrival of the
      active tab. */
  lemma ActivateArrived(l: TabList, h: HostWindow, t: TabInfo)
    requires HostWellFormed(h) && ValidArrival(h, t) && t.windowId == h.id && t.active
    requires Mirrors(l, Arrive(h, t.(active := false)))
    ensures SetActive(l, t.id).thrown.None? && Mirrors(SetActive(l, t.id).state, Arrive(h, t))
  {
    var hp := Arrive(h, t.(active := false));
    ArriveMembers(h, t.(active := false));
    ArriveWellFormed(h, t.(active := false));
    ActivateAgrees(l, hp, t.id);
    assert Arrive(h, t) == hp.(active := Some(t.id));
  }

  lemma CreateMirrors(l: TabList, h: HostWindow, t: TabInfo)
    requires HostWellFormed(h) && Mirrors(l, h) && ValidArrival(h, t)
    ensures LegacyTabList.Create(l, t).thrown.None?
    ensures Mirrors(LegacyTabList.Create(l, t).state, Arrive(h, t))
  {
    if t.windowId == h.id {
      CreateSettled(l, h, t);
      var l4 := Settled(l, t).state;
      var h' := Arrive(h, t);
      assert Finds(l4, t);
      RetouchAgrees(l4, h', t, Refreshed(l4.tabs[t.id], t));
      var l5 := Retouch(l4, t, Refreshed(l4.tabs[t.id], t));
      assert CreatePrefix(l, t) == Step(l5, None);
      RetouchAgrees(l5, h', t, UpdatePinned(UpdateIcon(l5.tabs[t.id], t.favIconUrl), t.pinned));
    }
  }

  // ---------------------------------------------------------------------
  // Removal, moves, activation and updates

  lemma RemoveMirrors(l: TabList, h: HostWindow, id: TabId)
    requires HostWellFormed(h) && Mirrors(l, h)
    ensures Mirrors(Remove(l, id), Depart(h, id))
  {
    if id in Strip(h) {
      WithoutAppend(h.pinned, h.unpinned, id);
    } else {
      WithoutAbsent(h.pinned, id);
      WithoutAbsent(h.unpinned, id);
      assert Depart(h, id) == h;
    }
  }

  /** The strip after a move the browser reports is the old strip with
      the tab moved from its old index to its new one. */
  lemma MoveStrip(h: HostWindow, id: TabId, from: int, to: int)
    requires HostWellFormed(h) && ValidEvent(h, Moved(id, from, to)) && id in Strip(h)
    ensures Strip(HostAfter(h, Moved(id, from, to))) == Move(Strip(h), from, to)
  {
    if id in h.pinned {
      MoveFront(h.pinned, h.unpinned, from, to);
    } else {
      MoveBack(h.pinned, h.unpinned, from - |h.pinned|, to - |h.pinned|);
    }
  }

  /** A move keeps each group's members, so records that agree with the
      window agree with it after the move, whatever the views. */
  lemma MoveAgrees(l: TabList, h: HostWindow, id: TabId, from: int, to: int, v: seq<TabId>)
    requires HostWellFormed(h) && Agrees(l, h) && ValidEvent(h, Moved(id, from, to))
    ensures Agrees(l.(view := v), HostAfter(h, Moved(id, from, to)))
  {
    var h' := HostAfter(h, Moved(id, from, to));
    NoDupSplit(h.pinned, h.unpinned);
    if id in h.pinned {
      MoveKeeps(h.pinned, from, to);
      assert h' == h.(pinned := Move(h.pinned, from, to));
    } else if id in h.unpinned {
      MoveKeeps(h.unpinned, from - |h.pinned|, to - |h.pinned|);
      assert h' == h.(unpinned := Move(h.unpinned, from - |h.pinned|, to - |h.pinned|));
    }
  }

  lemma MoveMirrors(l: TabList, h: HostWindow, id: TabId, from: int, to: int)
    requires HostWellFormed(h) && Mirrors(l, h) && ValidEvent(h, Moved(id, from, to))
    ensures OnBrowserTabMoved(l, id, from, to).thrown.None?
    ensures Mirrors(OnBrowserTabMoved(l, id, from, to).state, HostAfter(h, Moved(id, from, to)))
  {
    if id in Strip(h) {
      var s := Strip(h);
      NoDupSplit(h.pinned, h.unpinned);
      assert s[from] == id;
      PlaceMovedView(s, from, to);
      MoveStrip(h, id, from, to);
      assert OnBrowserTabMoved(l, id, from, to) == Step(l.(view := Move(s, from, to)), None);
      MoveAgrees(l, h, id, from, to, Move(s, from, to));
    } else {
      assert HostAfter(h, Moved(id, from, to)) == h;
    }
  }

  lemma ActivatedMirrors(l: TabList, h: HostWindow, id: TabId)
    requires HostWellFormed(h) && Mirrors(l, h)
    ensures SetActive(l, id).thrown.None?
    ensures Mirrors(SetActive(l, id).state, HostAfter(h, Activated(id)))
  {
    if id in Strip(h) {
      ActivateAgrees(l, h, id);
    }
  }

  lemma UpdatedMirrors(l: TabList, h: HostWindow, id: TabId, change: ChangeInfo, tab: TabInfo)
    requires HostWellFormed(h) && Mirrors(l, h) && ValidUpdate(h, id, change, tab)
    requires !PinChange(h, Updated(id, change, tab))
    ensures Mirrors(OnBrowserTabUpdated(l, change, tab), HostAfter(h, Updated(id, change, tab)))
  {
    if Finds(l, tab) {
      var t := UpdatedPrefix(l.tabs[tab.id], change, tab);
      var t' := if change.status == Some(Complete) then UpdateIcon(t, tab.favIconUrl) else t;
      RetouchAgrees(l, h, tab, t');
    }
  }

  /** Every event other than a pin change keeps the list mirroring the
      window, and no handler throws. */
  lemma HandleMirrors(l: TabList, h: HostWindow, e: Event)
    requires HostWellFormed(h) && Mirrors(l, h) && ValidEvent(h, e) && !PinChange(h, e)
    ensures Handle(l, e).thrown.None?
    ensures Mirrors(Handle(l, e).state, HostAfter(h, e))
  {
    match e
    case Created(t) => CreateMirrors(l, h, t);
    case Attached(t) => CreateMirrors(l, h, t);
    case Removed(id) => RemoveMirrors(l, h, id);
    case Detached(id) => RemoveMirrors(l, h, id);
    case Moved(id, from, to) => MoveMirrors(l, h, id, from, to);
    case Activated(id) => ActivatedMirrors(l, h, id);
    case Updated(id, change, tab) => UpdatedMirrors(l, h, id, change, tab);
  }

  /** Pinning a tab only changes its record: its view stays where it was,
      so when the tab did not already stand first among the unpinned tabs,
      the list no longer follows the strip. */
  lemma PinLeavesView(l: TabList, h: HostWindow, id: TabId, change: ChangeInfo, tab: TabInfo)
    requires HostWellFormed(h) && Mirrors(l, h) && ValidUpdate(h, id, change, tab)
    requires change.pinned == Some(true) && id in h.unpinned && h.unpinned[0] != id
    ensures OnBrowserTabUpdated(l, change, tab).view == l.view
    ensures !Mirrors(OnBrowserTabUpdated(l, change, tab), HostAfter(h, Updated(id, change, tab)))
  {
    var h' := HostAfter(h, Updated(id, change, tab));
    assert Strip(h')[|h.pinned|] == id;
    assert Strip(h)[|h.pinned|] == h.unpinned[0];
  }

  // ---------------------------------------------------------------------
  // Runs of events and populating

  /** No event of the run pins or unpins a tab of the window. */
  ghost predicate QuietRun(h: HostWindow, es: seq<Event>)
    requires ValidRun(h, es)
    decreases |es|
  {
    |es| == 0 || (!PinChange(h, es[0]) && QuietRun(HostAfter(h, es[0]), es[1..]))
  }

  /** The list after handling each event in turn; an exception ends the
      run. */
  function Run(l: TabList, es: seq<Event>): Step<TabList>
    decreases |es|
  {
    if |es| == 0 then Step(l, None)
    else
      var s := Handle(l, es[0]);
      if s.thrown.Some? then s else Run(s.state, es[1..])
  }

  lemma {:induction false} RunMirrors(l: TabList, h: HostWindow, es: seq<Event>)
    requires HostWellFormed(h) && ValidRun(h, es) && QuietRun(h, es) && Mirrors(l, h)
    ensures Run(l, es).thrown.None?
    ensures Mirrors(Run(l, es).state, HostRun(h, es))
    decreases |es|
  {
    if |es| > 0 {
      HandleMirrors(l, h, es[0]);
      HostAfterWellFormed(h, es[0]);
      RunMirrors(Handle(l, es[0]).state, HostAfter(h, es[0]), es[1..]);
    }
  }

  /** Creating the next tab of the strip extends the mirrored part by
      that tab. */
  lemma CreateNextMirrors(l: TabList, h: HostWindow, ts: seq<TabInfo>, i: nat)
    requires HostWellFormed(h) && SidebarPopulate.Describes(h, ts) && i < |ts|
    requires Mirrors(l, SidebarPopulate.Partial(h, i))
    ensures LegacyTabList.Create(l, ts[i]).thrown.None?
    ensures Mirrors(LegacyTabList.Create(l, ts[i]).state, SidebarPopulate.Partial(h, i + 1))
  {
    SidebarPopulate.PartialWellFormed(h, i);
    SidebarPopulate.PartialArrive(h, ts, i);
    CreateMirrors(l, SidebarPopulate.Partial(h, i), ts[i]);
  }

  /** A create that does not throw is followed by the creation of the
      rest. */
  lemma CreateAllStep(l: TabList, ts: seq<TabInfo>, i: nat)
    requires i < |ts| && LegacyTabList.Create(l, ts[i]).thrown.None?
    ensures CreateAllWith(l, ts[i..], false) == CreateAllWith(LegacyTabList.Create(l, ts[i]).state, ts[i + 1..], false)
  {
    var rest := ts[i..];
    assert rest[0] == ts[i] && rest[1..] == ts[i + 1..];
  }

  /** Creating the remaining tabs of a window, in strip order, from a list
      that mirrors the tabs before them. */
  lemma {:induction false} CreateAllMirrors(l: TabList, h: HostWindow, ts: seq<TabInfo>, i: nat)
    requires HostWellFormed(h) && SidebarPopulate.Describes(h, ts) && i <= |ts|
    requires Mirrors(l, SidebarPopulate.Partial(h, i))
    ensures CreateAllWith(l, ts[i..], false).thrown.None?
    ensures Mirrors(CreateAllWith(l, ts[i..], false).state, h)
    decreases |ts| - i
  {
    if i == |ts| {
      SidebarPopulate.PartialWhole(h);
      assert ts[i..] == [];
    } else {
      CreateNextMirrors(l, h, ts, i);
      var s := LegacyTabList.Create(l, ts[i]);
      CreateAllStep(l, ts, i);
      CreateAllMirrors(s.state, h, ts, i + 1);
    }
  }

  /** Populating the empty list with the window's tabs, reported in strip
      order, yields a list that mirrors the window. */
  lemma PopulateMirrors(h: HostWindow, query: seq<TabInfo>)
    requires HostWellFormed(h) && h.id != 0 && SidebarPopulate.Describes(h, query)
    ensures PopulateWith(Empty, h.id, query, false).thrown.None?
    ensures Mirrors(PopulateWith(Empty, h.id, query, false).state, h)
  {
    var l := Empty.(windowId := Some(h.id));
    assert SidebarPopulate.Partial(h, 0) == HostWindow(h.id, [], [], None);
    CreateAllMirrors(l, h, query, 0);
    assert query[0..] == query;
  }

  // ---------------------------------------------------------------------
  // Drops

  /** What `tabs.query({pinned, windowId})` reports for the bound window,
      the query the later sidebar makes. */
  function WindowQuery(h: HostWindow): (q: GroupQuery)
    ensures q.pinned == SidebarDrop.GroupIndexes(h, true) && q.unpinned == SidebarDrop.GroupIndexes(h, false)
  {
    GroupQuery(SidebarDrop.GroupIndexes(h, true), SidebarDrop.GroupIndexes(h, false))
  }

  lemma TabCount(l: TabList, h: HostWindow)
    requires HostWellFormed(h) && Mirrors(l, h)
    ensures |l.tabs| == |Strip(h)|
  {
    assert forall k :: k in l.tabs.Keys <==> k in Members(Strip(h));
    assert l.tabs.Keys == Members(Strip(h));
    MembersCard(Strip(h));
  }

  /** A tab dragged onto another tab of its group goes to the drop target's
      index in the strip. */
  lemma DropInGroupMirrors(l: TabList, h: HostWindow, path: seq<Node>, x: TabId, y: TabId, q: GroupQuery)
    requires HostWellFormed(h) && Mirrors(l, h)
    requires |path| > 0 && IsTabNode(path[0]) && !SidebarDrop.OnListEnd(path) && ListTabIdForEvent(path) == Ok(Num(y))
    requires x in Strip(h) && y in Strip(h) && x != y && (x in h.pinned <==> y in h.pinned)
    ensures OnDrop(l, path, Some(SidebarDrop.DraggedTab(x, Some(h.id))), q) == Ok(Some(MoveTab(x, IndexOf(Strip(h), y))))
  {
    TabCount(l, h);
    assert TabById(l, Num(x)) == Some(l.tabs[x]) && TabById(l, Num(y)) == Some(l.tabs[y]);
    var cur := GetPos(l, x).value;
    var drop := GetPos(l, y).value;
    assert OnDrop(l, path, Some(SidebarDrop.DraggedTab(x, Some(h.id))), q) == DropOnTab(l, x, Num(y), q);
    assert OnDrop(l, path, Some(SidebarDrop.DraggedTab(x, Some(h.id))), q)
        == Ok(Some(MoveTab(x, SidebarDrop.DropIndex(cur, drop, |l.tabs|))));
  }

  /** Restricted to the window, `moveTabToBottom` of a pinned tab targets
      the index just past the pinned tabs. */
  lemma WindowBottomPinned(l: TabList, h: HostWindow, x: TabId)
    requires HostWellFormed(h) && Mirrors(l, h) && x in h.pinned
    ensures MoveTabToBottom(Some(l.tabs[x]), WindowQuery(h)) == Ok(MoveTab(x, |h.pinned|))
  {
    var q := WindowQuery(h);
    assert |q.pinned| == |h.pinned| > 0;
    assert q.pinned[|q.pinned| - 1] == |h.pinned| - 1;
  }

  /** Restricted to the window, `moveTabToTop` of an unpinned tab targets
      the first unpinned index. */
  lemma WindowTopUnpinned(l: TabList, h: HostWindow, x: TabId)
    requires HostWellFormed(h) && Mirrors(l, h) && x in h.unpinned
    ensures MoveTabToTop(Some(l.tabs[x]), WindowQuery(h)) == Ok(MoveTab(x, |h.pinned|))
  {
    NoDupSplit(h.pinned, h.unpinned);
    var q := WindowQuery(h);
    assert |q.unpinned| == |h.unpinned| > 0;
    assert q.unpinned[0] == |h.pinned|;
  }

  /** With the report restricted to the window, a tab dragged across the
      pinned boundary goes to the boundary: a pinned tab just past the
      pinned tabs, an unpinned tab to the front of its group. */
  lemma DropAcrossGroupsMirrors(l: TabList, h: HostWindow, path: seq<Node>, x: TabId, y: TabId)
    requires HostWellFormed(h) && Mirrors(l, h)
    requires |path| > 0 && IsTabNode(path[0]) && !SidebarDrop.OnListEnd(path) && ListTabIdForEvent(path) == Ok(Num(y))
    requires x in Strip(h) && y in Strip(h) && (x in h.pinned <==> y !in h.pinned)
    ensures OnDrop(l, path, Some(SidebarDrop.DraggedTab(x, Some(h.id))), WindowQuery(h)) == Ok(Some(MoveTab(x, |h.pinned|)))
  {
    if x in h.pinned {
      DropPinnedAcross(l, h, path, x, y);
    } else {
      DropUnpinnedAcross(l, h, path, x, y);
    }
  }

  lemma DropPinnedAcross(l: TabList, h: HostWindow, path: seq<Node>, x: TabId, y: TabId)
    requires HostWellFormed(h) && Mirrors(l, h)
    requires |path| > 0 && IsTabNode(path[0]) && !SidebarDrop.OnListEnd(path) && ListTabIdForEvent(path) == Ok(Num(y))
    requires x in h.pinned && y in h.unpinned
    ensures OnDrop(l, path, Some(SidebarDrop.DraggedTab(x, Some(h.id))), WindowQuery(h)) == Ok(Some(MoveTab(x, |h.pinned|)))
  {
    assert OnDrop(l, path, Some(SidebarDrop.DraggedTab(x, Some(h.id))), WindowQuery(h)) == DropOnTab(l, x, Num(y), WindowQuery(h));
    NoDupSplit(h.pinned, h.unpinned);
    assert TabById(l, Num(x)) == Some(l.tabs[x]) && TabById(l, Num(y)) == Some(l.tabs[y]);
    assert l.tabs[x].pinned && !l.tabs[y].pinned;
    WindowBottomPinned(l, h, x);
  }

  lemma DropUnpinnedAcross(l: TabList, h: HostWindow, path: seq<Node>, x: TabId, y: TabId)
    requires HostWellFormed(h) && Mirrors(l, h)
    requires |path| > 0 && IsTabNode(path[0]) && !SidebarDrop.OnListEnd(path) && ListTabIdForEvent(path) == Ok(Num(y))
    requires x in h.unpinned && y in h.pinned
    ensures OnDrop(l, path, Some(SidebarDrop.DraggedTab(x, Some(h.id))), WindowQuery(h)) == Ok(Some(MoveTab(x, |h.pinned|)))
  {
    assert OnDrop(l, path, Some(SidebarDrop.DraggedTab(x, Some(h.id))), WindowQuery(h)) == DropOnTab(l, x, Num(y), WindowQuery(h));
    NoDupSplit(h.pinned, h.unpinned);
    assert TabById(l, Num(x)) == Some(l.tabs[x]) && TabById(l, Num(y)) == Some(l.tabs[y]);
    assert !l.tabs[x].pinned && l.tabs[y].pinned;
    WindowTopUnpinned(l, h, x);
  }

  lemma DropOnListEndMirrors(l: TabList, h: HostWindow, path: seq<Node>, x: TabId)
    requires HostWellFormed(h) && Mirrors(l, h) && SidebarDrop.OnListEnd(path) && x in Strip(h)
    ensures OnDrop(l, path, Some(SidebarDrop.DraggedTab(x, Some(h.id))), WindowQuery(h))
         == Ok(Some(MoveTab(x, if x in h.pinned then |h.pinned| else |Strip(h)|)))
  {
    assert TabById(l, Num(x)) == Some(l.tabs[x]);
  }

  /** The query of `moveTabToBottom` names no window, so with a second
      window the last pinned tab it reports may be another window's: a
      pinned tab of a window whose only pinned tab is itself, with three
      pinned tabs in the other window, is sent to index 3 instead of 1. */
  lemma BottomReportsOtherWindow()
    ensures var h := HostWindow(1, [5], [6], Some(5));
            var t := LegacyTab.Create(TabInfo(5, 1, 0, true, true, false, "", "", false, false, None, false));
            MoveTabToBottom(Some(t), GroupQuery([0, 0, 1, 2], [1, 3])) == Ok(MoveTab(5, 3))
            && MoveTabToBottom(Some(t), WindowQuery(h)) == Ok(MoveTab(5, |h.pinned|))
            && |h.pinned| == 1
  {
  }
}
