/** `populate(windowId)` of `src/sidebar/tablist.js`: the list binds itself to
    the window, sorts the tabs the query reports by index, tracks each one
    and appends the views of each group in that order. The main result is
    that populating an empty list from a snapshot of a window, reported in
    any order, leaves a list that mirrors the window. */
module SidebarPopulate {
  import opened Js
  import opened Seqs
  import opened Dom
  import opened Browser
  import opened SidebarTab
  import opened SidebarTabList
  import opened SidebarSync

  // ---------------------------------------------------------------------
  // Sorting by index

  predicate SortedByIndex(ts: seq<TabInfo>)
  {
    forall i, j :: 0 <= i < j < |ts| ==> ts[i].index <= ts[j].index
  }

  predicate DistinctIndexes(ts: seq<TabInfo>)
  {
    forall i, j :: 0 <= i < j < |ts| ==> ts[i].index != ts[j].index
  }

  /** One step of a stable insertion sort: `t` goes after every tab whose
      index is not greater. */
  function InsertByIndex(t: TabInfo, s: seq<TabInfo>): (r: seq<TabInfo>)
    requires SortedByIndex(s)
    ensures SortedByIndex(r)
    ensures multiset(r) == multiset(s) + multiset{t}
    ensures |r| > 0 && (r[0] == t || (|s| > 0 && r[0] == s[0]))
  {
    if |s| == 0 then [t]
    else if t.index < s[0].index then
      SortedCons(t, s);
      [t] + s
    else
      SortedTail(s);
      var rest := InsertByIndex(t, s[1..]);
      assert s == [s[0]] + s[1..];
      SortedCons(s[0], rest);
      [s[0]] + rest
  }

  lemma SortedCons(x: TabInfo, s: seq<TabInfo>)
    requires SortedByIndex(s) && (|s| > 0 ==> x.index <= s[0].index)
    ensures SortedByIndex([x] + s)
  {
    var r := [x] + s;
    forall i, j | 0 <= i < j < |r|
      ensures r[i].index <= r[j].index
    {
      if i == 0 && j > 1 {
        assert s[0].index <= s[j - 1].index;
      }
    }
  }

  lemma SortedTail(s: seq<TabInfo>)
    requires SortedByIndex(s) && |s| > 0
    ensures SortedByIndex(s[1..])
    ensures DistinctIndexes(s) ==> DistinctIndexes(s[1..])
  {
    var t := s[1..];
    assert forall k :: 0 <= k < |t| ==> t[k] == s[k + 1];
  }

  /** `tabs.sort((a, b) => a.index - b.index)`, a stable sort. */
  function SortByIndex(ts: seq<TabInfo>): (r: seq<TabInfo>)
    ensures SortedByIndex(r)
    ensures multiset(r) == multiset(ts)
    decreases |ts|
  {
    if |ts| == 0 then []
    else
      assert ts == ts[..|ts| - 1] + [ts[|ts| - 1]];
      InsertByIndex(ts[|ts| - 1], SortByIndex(ts[..|ts| - 1]))
  }

  /** Two sorted orderings of the same tabs agree when the indexes are
      distinct. */
  lemma {:induction false} SortedPermUnique(a: seq<TabInfo>, b: seq<TabInfo>)
    requires SortedByIndex(a) && DistinctIndexes(a) && SortedByIndex(b)
    requires multiset(a) == multiset(b)
    ensures a == b
    decreases |a|
  {
    assert |a| == |multiset(a)| == |b|;
    if |a| > 0 {
      HeadsAgree(a, b);
      assert a == [a[0]] + a[1..];
      assert b == [b[0]] + b[1..];
      assert multiset(a) == multiset{a[0]} + multiset(a[1..]);
      assert multiset(b) == multiset{b[0]} + multiset(b[1..]);
      assert multiset(a[1..]) == multiset(a) - multiset{a[0]} == multiset(b) - multiset{b[0]} == multiset(b[1..]);
      SortedTail(a);
      SortedTail(b);
      SortedPermUnique(a[1..], b[1..]);
    }
  }

  /** The first tab of each is the one with the least index. */
  lemma HeadsAgree(a: seq<TabInfo>, b: seq<TabInfo>)
    requires SortedByIndex(a) && DistinctIndexes(a) && SortedByIndex(b)
    requires multiset(a) == multiset(b) && |a| > 0 && |b| > 0
    ensures a[0] == b[0]
  {
    assert b[0] in multiset(a);
    var j :| 0 <= j < |a| && a[j] == b[0];
    assert a[0] in multiset(b);
    var i :| 0 <= i < |b| && b[i] == a[0];
    assert a[0].index <= a[j].index;
    assert b[0].index <= b[i].index;
    assert j == 0;
  }

  // ---------------------------------------------------------------------
  // Populating

  /** `__create` for each tab in turn; an exception ends the loop. */
  function TrackAll(l: TabList, ts: seq<TabInfo>): (r: Step<TabList>)
    ensures r.state.doc == l.doc && r.state.windowId == l.windowId
    decreases |ts|
  {
    if |ts| == 0 then Step(l, None)
    else
      var s := TrackAll(l, ts[..|ts| - 1]);
      if s.thrown.Some? then s else Track(s.state, ts[|ts| - 1])
  }

  /** The views a document fragment collects: those of the tabs of one
      group, in order. */
  function Fragment(ts: seq<TabInfo>, pinned: bool): (r: seq<TabId>)
    ensures |r| <= |ts|
    decreases |ts|
  {
    if |ts| == 0 then []
    else
      var last := ts[|ts| - 1];
      Fragment(ts[..|ts| - 1], pinned) + (if last.pinned == pinned then [last.id] else [])
  }

  /** `populate(windowId)` given the tabs `tabs.query({windowId})` reports
      and the measurements compact mode reads afterwards. */
  function Populate(l: TabList, windowId: int, query: seq<TabInfo>, m: Measures): (r: Step<TabList>)
    ensures l.windowId.None? && windowId != 0 ==> r.state.windowId == Some(windowId)
    ensures l.windowId.Some? || windowId == 0 ==> r.state.windowId == l.windowId
    ensures r.thrown.Some? ==> r.state.doc == l.doc
  {
    var l1 := if windowId != 0 && l.windowId.None? then l.(windowId := Some(windowId)) else l;
    PopulateSorted(l1, SortByIndex(query), m)
  }

  /** The loop over the sorted tabs and the appending of the fragments. */
  function PopulateSorted(l: TabList, sorted: seq<TabInfo>, m: Measures): (r: Step<TabList>)
    ensures r.state.windowId == l.windowId
    ensures r.thrown.Some? ==> r.state.doc == l.doc
  {
    var s := TrackAll(l, sorted);
    if s.thrown.Some? then s
    else
      var d := Document(s.state.doc.pinned + Fragment(sorted, true), s.state.doc.unpinned + Fragment(sorted, false));
      Step(MaybeShrinkTabs(s.state.(doc := d), m), None)
  }

  // ---------------------------------------------------------------------
  // Populating from a snapshot of a window

  /** `ts` is what the browser reports for window `h`, in strip order: each
      tab's id, index, window, group and active state. */
  ghost predicate Describes(h: HostWindow, ts: seq<TabInfo>)
  {
    |ts| == |Strip(h)|
    && forall i :: 0 <= i < |ts| ==>
         ts[i].id == Strip(h)[i] && ts[i].index == i && ts[i].windowId == h.id
         && ts[i].pinned == (i < |h.pinned|) && (ts[i].active <==> h.active == Some(Strip(h)[i]))
  }

  function Min(a: int, b: int): int { if a < b then a else b }

  function Max(a: int, b: int): int { if a < b then b else a }

  /** The window made of the first `i` tabs of `h`. */
  ghost function Partial(h: HostWindow, i: nat): HostWindow
    requires i <= |Strip(h)|
  {
    HostWindow(h.id, h.pinned[..Min(i, |h.pinned|)], h.unpinned[..Max(0, i - |h.pinned|)],
               if h.active.Some? && h.active.value in Strip(h)[..i] then h.active else None)
  }

  lemma PartialStrip(h: HostWindow, i: nat)
    requires i <= |Strip(h)|
    ensures Strip(Partial(h, i)) == Strip(h)[..i]
  {
    if i > |h.pinned| {
      assert Strip(h)[..i] == h.pinned + h.unpinned[..i - |h.pinned|];
    }
  }

  lemma PartialWellFormed(h: HostWindow, i: nat)
    requires HostWellFormed(h) && i <= |Strip(h)|
    ensures HostWellFormed(Partial(h, i))
  {
    PartialStrip(h, i);
    var s := Strip(h)[..i];
    assert forall k :: 0 <= k < i ==> s[k] == Strip(h)[k];
  }

  /** The `i`-th tab of the snapshot arrives at the end of its group. */
  lemma PartialArrive(h: HostWindow, ts: seq<TabInfo>, i: nat)
    requires HostWellFormed(h) && Describes(h, ts) && i < |ts|
    ensures ValidArrival(Partial(h, i), ts[i]) && ts[i].windowId == h.id
    ensures Arrive(Partial(h, i), ts[i]) == Partial(h, i + 1)
  {
    PartialArrivalValid(h, ts, i);
    PartialGroups(h, ts, i);
    PartialActive(h, ts, i);
  }

  lemma PartialArrivalValid(h: HostWindow, ts: seq<TabInfo>, i: nat)
    requires HostWellFormed(h) && Describes(h, ts) && i < |ts|
    ensures ValidArrival(Partial(h, i), ts[i]) && ts[i].windowId == h.id
  {
    var p := Partial(h, i);
    var t := ts[i];
    PartialStrip(h, i);
    PositiveMember(Strip(h), t.id);
    assert t.id !in Strip(p) by {
      forall k | 0 <= k < i
        ensures Strip(h)[k] != t.id
      {
      }
    }
  }

  /** The next tab of the snapshot is appended to its own group. */
  lemma PartialGroups(h: HostWindow, ts: seq<TabInfo>, i: nat)
    requires HostWellFormed(h) && Describes(h, ts) && i < |ts|
    ensures ts[i].pinned ==> Partial(h, i + 1).pinned == InsertAt(Partial(h, i).pinned, ts[i].index, ts[i].id)
                             && Partial(h, i + 1).unpinned == Partial(h, i).unpinned
    ensures !ts[i].pinned ==> Partial(h, i + 1).unpinned == InsertAt(Partial(h, i).unpinned, ts[i].index - |Partial(h, i).pinned|, ts[i].id)
                              && Partial(h, i + 1).pinned == Partial(h, i).pinned
  {
    var p := Partial(h, i);
    var t := ts[i];
    if t.pinned {
      assert h.pinned[..i + 1] == h.pinned[..i] + [h.pinned[i]];
      assert InsertAt(p.pinned, i, t.id) == p.pinned + [t.id];
    } else {
      var k := i - |h.pinned|;
      assert h.unpinned[..k + 1] == h.unpinned[..k] + [h.unpinned[k]];
      assert InsertAt(p.unpinned, k, t.id) == p.unpinned + [t.id];
    }
  }

  /** The next tab becomes the active one exactly when it is. */
  lemma PartialActive(h: HostWindow, ts: seq<TabInfo>, i: nat)
    requires HostWellFormed(h) && Describes(h, ts) && i < |ts|
    ensures Partial(h, i + 1).active == if ts[i].active then Some(ts[i].id) else Partial(h, i).active
  {
    assert Strip(h)[..i + 1] == Strip(h)[..i] + [ts[i].id];
  }

  /** Tracking the first `i` tabs of the snapshot leaves a list that agrees
      with the window of those tabs. */
  lemma {:induction false} TrackPrefix(l: TabList, h: HostWindow, ts: seq<TabInfo>, i: nat)
    requires HostWellFormed(h) && Describes(h, ts) && i <= |ts|
    requires Agrees(l, Partial(h, 0))
    ensures TrackAll(l, ts[..i]).thrown.None?
    ensures Agrees(TrackAll(l, ts[..i]).state, Partial(h, i))
  {
    if i > 0 {
      TrackPrefix(l, h, ts, i - 1);
      var prev := TrackAll(l, ts[..i - 1]);
      assert TrackAll(l, ts[..i]) == Track(prev.state, ts[i - 1]) by {
        var pre := ts[..i];
        assert pre[..i - 1] == ts[..i - 1];
        assert pre[i - 1] == ts[i - 1];
      }
      PartialWellFormed(h, i - 1);
      PartialArrive(h, ts, i - 1);
      TrackAgrees(prev.state, Partial(h, i - 1), ts[i - 1]);
    }
  }

  /** The fragments of the first `i` tabs of the snapshot hold the groups of
      the window of those tabs. */
  lemma {:induction false} FragmentPrefix(h: HostWindow, ts: seq<TabInfo>, i: nat)
    requires HostWellFormed(h) && Describes(h, ts) && i <= |ts|
    ensures Fragment(ts[..i], true) == Partial(h, i).pinned
    ensures Fragment(ts[..i], false) == Partial(h, i).unpinned
  {
    if i > 0 {
      FragmentPrefix(h, ts, i - 1);
      var pre := ts[..i];
      assert pre[..i - 1] == ts[..i - 1];
      assert pre[i - 1] == ts[i - 1];
      PartialGrows(h, ts, i - 1);
    }
  }

  /** One more tab of the snapshot joins the end of its group. */
  lemma PartialGrows(h: HostWindow, ts: seq<TabInfo>, i: nat)
    requires HostWellFormed(h) && Describes(h, ts) && i < |ts|
    ensures Partial(h, i + 1).pinned == Partial(h, i).pinned + (if ts[i].pinned then [ts[i].id] else [])
    ensures Partial(h, i + 1).unpinned == Partial(h, i).unpinned + (if ts[i].pinned then [] else [ts[i].id])
  {
    if ts[i].pinned {
      assert h.pinned[..i + 1] == h.pinned[..i] + [h.pinned[i]];
    } else {
      var k := i - |h.pinned|;
      assert h.unpinned[..k + 1] == h.unpinned[..k] + [h.unpinned[k]];
    }
  }

  /** All of the snapshot makes up the whole window. */
  lemma PartialWhole(h: HostWindow)
    requires HostWellFormed(h)
    ensures Partial(h, |Strip(h)|) == h
  {
    assert Strip(h)[..|Strip(h)|] == Strip(h);
  }

  /** Populating an empty, unbound list from a snapshot of a window, whatever
      order the query reports it in, yields a list that mirrors the
      window. */
  lemma PopulateMirrors(l: TabList, h: HostWindow, query: seq<TabInfo>, snapshot: seq<TabInfo>, m: Measures)
    requires HostWellFormed(h) && h.id != 0
    requires l.tabs == map[] && l.doc == Document([], []) && l.active.None? && l.windowId.None?
    requires Describes(h, snapshot) && multiset(query) == multiset(snapshot)
    ensures Populate(l, h.id, query, m).thrown.None?
    ensures Mirrors(Populate(l, h.id, query, m).state, h)
  {
    SortedPermUnique(snapshot, SortByIndex(query));
    SnapshotMirrors(l.(windowId := Some(h.id)), h, snapshot, m);
  }

  lemma SnapshotMirrors(l: TabList, h: HostWindow, snapshot: seq<TabInfo>, m: Measures)
    requires HostWellFormed(h)
    requires l.tabs == map[] && l.doc == Document([], []) && l.active.None? && l.windowId == Some(h.id)
    requires Describes(h, snapshot)
    ensures PopulateSorted(l, snapshot, m).thrown.None?
    ensures Mirrors(PopulateSorted(l, snapshot, m).state, h)
  {
    var n := |snapshot|;
    assert snapshot[..n] == snapshot;
    TrackPrefix(l, h, snapshot, n);
    FragmentPrefix(h, snapshot, n);
    PartialWhole(h);
    var s := TrackAll(l, snapshot).state;
    assert s.doc.pinned + Fragment(snapshot, true) == h.pinned;
    assert s.doc.unpinned + Fragment(snapshot, false) == h.unpinned;
    Redrawn(s, h);
    var r := s.(doc := Document(h.pinned, h.unpinned));
    assert PopulateSorted(l, snapshot, m) == Step(MaybeShrinkTabs(r, m), None);
    ShrinkMirrors(r, h, m);
  }

  /** Compact mode only changes the display. */
  lemma ShrinkMirrors(l: TabList, h: HostWindow, m: Measures)
    requires Mirrors(l, h)
    ensures Mirrors(MaybeShrinkTabs(l, m), h)
  {
    var r := MaybeShrinkTabs(l, m);
    assert r.(display := l.display) == l;
    assert r.tabs == l.tabs && r.doc == l.doc && r.active == l.active && r.windowId == l.windowId;
  }
}
