/** The part of the sidebar document the tab list touches: the pinned list
    `#pinnedtablist` followed by the list `#tablist`, each holding tab views
    in document order (a view is named by its tab id), and the chain of
    elements an event target sits in. */
module Dom {
  import opened Js
  import opened Seqs

  type TabId = int

  datatype Container = PinnedList | UnpinnedList

  datatype Document = Document(pinned: seq<TabId>, unpinned: seq<TabId>)

  /** Every tab view, in document order: what `getAllTabsViews()` returns
      where it is defined (the older src/tab.js). The sidebar's own tab
      record lacks that method, so this is the corrected reading of its
      calls; see `SidebarTabList.SetPosAsWritten`. */
  function Elements(d: Document): seq<TabId>
  {
    d.pinned + d.unpinned
  }

  /** A view appears at most once in the document. */
  predicate WellFormed(d: Document)
  {
    NoDup(Elements(d))
  }

  function Children(d: Document, c: Container): seq<TabId>
  {
    if c == PinnedList then d.pinned else d.unpinned
  }

  function SetChildren(d: Document, c: Container, s: seq<TabId>): Document
  {
    if c == PinnedList then d.(pinned := s) else d.(unpinned := s)
  }

  /** `view.parentElement`, or None for a view outside the document. */
  function ParentOf(d: Document, x: TabId): (p: Option<Container>)
    ensures p == Some(PinnedList) <==> x in d.pinned
    ensures p == Some(UnpinnedList) <==> x !in d.pinned && x in d.unpinned
    ensures p.None? <==> x !in Elements(d)
  {
    if x in d.pinned then Some(PinnedList)
    else if x in d.unpinned then Some(UnpinnedList)
    else None
  }

  function FirstChild(d: Document, c: Container): Option<TabId>
  {
    var s := Children(d, c);
    if |s| == 0 then None else Some(s[0])
  }

  /** `view.nextSibling`: the view after `x` in its own list, or None when
      `x` is the last one. */
  function NextSibling(d: Document, x: TabId): Option<TabId>
    requires x in Elements(d)
  {
    var s := Children(d, ParentOf(d, x).value);
    var k := IndexOf(s, x);
    if k + 1 < |s| then Some(s[k + 1]) else None
  }

  /** `view.remove()`. */
  function Detach(d: Document, x: TabId): (r: Document)
    ensures x !in Elements(r)
  {
    Document(Without(d.pinned, x), Without(d.unpinned, x))
  }

  /** `parent.appendChild(view)`: the view leaves its old place and becomes
      the last child of `c`. */
  function AppendChild(d: Document, c: Container, x: TabId): (r: Document)
    ensures x in Children(r, c)
  {
    var d' := Detach(d, x);
    SetChildren(d', c, Children(d', c) + [x])
  }

  /** `parent.insertBefore(view, ref)`. A reference that is not a child of
      the parent throws NotFoundError before anything moves; a view
      inserted before itself stays where it is; a null reference appends. */
  function InsertBefore(d: Document, c: Container, x: TabId, ref: Option<TabId>): Result<Document>
  {
    match ref
    case None => Ok(AppendChild(d, c, x))
    case Some(r) =>
      if ParentOf(d, r) != Some(c) then Err(NotFoundError)
      else if r == x then Ok(d)
      else
        var d' := Detach(d, x);
        var s := Children(d', c);
        var k := IndexOf(s, r);
        assert k >= 0 by {
          var i :| 0 <= i < |Children(d, c)| && Children(d, c)[i] == r;
        }
        Ok(SetChildren(d', c, InsertAt(s, k, x)))
  }

  // ---------------------------------------------------------------------
  // The positioning rule of `_setPos`

  /** The node `_setPos` inserts before, as written: the view at `pos` when
      it belongs to the target list, otherwise the next sibling of the view
      at `pos - 1`; when there is no view at `pos - 1`, reading its
      `nextSibling` throws. */
  function ReferenceAsWritten(d: Document, c: Container, pos: int): Result<Option<TabId>>
  {
    var els := Elements(d);
    if 0 <= pos < |els| && ParentOf(d, els[pos]) == Some(c) then Ok(Some(els[pos]))
    else if 0 <= pos - 1 < |els| then Ok(NextSibling(d, els[pos - 1]))
    else Err(TypeError)
  }

  /** The same rule with the case the code misses filled in: with no view
      before `pos`, the view goes first in its list. */
  function Reference(d: Document, c: Container, pos: int): Result<Option<TabId>>
  {
    var els := Elements(d);
    if 0 <= pos < |els| && ParentOf(d, els[pos]) == Some(c) then Ok(Some(els[pos]))
    else if pos <= 0 then Ok(FirstChild(d, c))
    else if pos - 1 < |els| then Ok(NextSibling(d, els[pos - 1]))
    else Err(TypeError)
  }

  /** The document part of `_setPos`, as written. */
  function PositionAtAsWritten(d: Document, c: Container, x: TabId, pos: int): Result<Document>
  {
    if |Elements(d)| == 0 then Ok(AppendChild(d, c, x))
    else
      match ReferenceAsWritten(d, c, pos)
      case Err(e) => Err(e)
      case Ok(r) => InsertBefore(d, c, x, r)
  }

  /** The document part of `_setPos`, with the corrected reference. */
  function PositionAt(d: Document, c: Container, x: TabId, pos: int): Result<Document>
  {
    if |Elements(d)| == 0 then Ok(AppendChild(d, c, x))
    else
      match Reference(d, c, pos)
      case Err(e) => Err(e)
      case Ok(r) => InsertBefore(d, c, x, r)
  }

  /** Whenever the positioning succeeds, the view ends up in list `c`. */
  lemma PositionAtPlaces(d: Document, c: Container, x: TabId, pos: int)
    ensures PositionAt(d, c, x, pos).Ok? ==> x in Children(PositionAt(d, c, x, pos).value, c)
  {
    if |Elements(d)| > 0 {
      match Reference(d, c, pos)
      case Err(_) =>
      case Ok(r) => InsertBeforePlaces(d, c, x, r);
    }
  }

  lemma InsertBeforePlaces(d: Document, c: Container, x: TabId, ref: Option<TabId>)
    ensures InsertBefore(d, c, x, ref).Ok? ==> x in Children(InsertBefore(d, c, x, ref).value, c)
  {
    if ref.Some? && ParentOf(d, ref.value) == Some(c) && ref.value != x {
      var d' := Detach(d, x);
      var s := Children(d', c);
      var k := IndexOf(s, ref.value);
      var s' := InsertAt(s, k, x);
      assert s'[k] == x;
      assert Children(SetChildren(d', c, s'), c) == s';
    }
  }

  /** The two rules differ only in front of the first view. */
  lemma PositionAtAsWrittenAgrees(d: Document, c: Container, x: TabId, pos: int)
    requires pos > 0
    ensures PositionAtAsWritten(d, c, x, pos) == PositionAt(d, c, x, pos)
  {
  }

  /** As written, placing a view at position 0 throws whenever the first
      view of the document belongs to the other list. */
  lemma PositionAtAsWrittenFront(d: Document, c: Container, x: TabId)
    requires |Elements(d)| > 0 && ParentOf(d, Elements(d)[0]) != Some(c)
    ensures PositionAtAsWritten(d, c, x, 0) == Err(TypeError)
  {
  }

  /** Creating a pinned tab (view 7) at index 0 while only unpinned views
      exist (view 5): `__create` does not insert the new view, so the first
      view of the document is 5, in the unpinned list; there is no view
      before index 0, and the code as written throws where the corrected
      rule puts the new view first in the pinned list. (Pinning an existing
      tab cannot get here: `_onTabPinned` appends the view to the pinned
      list first, so the first view is then the tab's own.) */
  lemma CreatePinnedFirst()
    ensures PositionAtAsWritten(Document([], [5]), PinnedList, 7, 0) == Err(TypeError)
    ensures PositionAt(Document([], [5]), PinnedList, 7, 0) == Ok(Document([7], [5]))
  {
    var d := Document([], [5]);
    assert Elements(d) == [5];
    assert ParentOf(d, 5) == Some(UnpinnedList);
    WithoutAbsent(d.pinned, 7);
    WithoutAbsent(d.unpinned, 7);
    assert Detach(d, 7) == d;
    assert Reference(d, PinnedList, 0) == Ok(None);
    assert AppendChild(d, PinnedList, 7) == Document([7], [5]);
  }

  // ---------------------------------------------------------------------
  // What the positioning rule does to a well-formed document

  /** Flat index of the first view of list `c`. */
  function Offset(d: Document, c: Container): int
  {
    if c == PinnedList then 0 else |d.pinned|
  }

  lemma ChildInElements(d: Document, c: Container, x: TabId)
    ensures x in Children(d, c) ==> x in Elements(d)
  {
  }

  lemma ChildrenSplit(d: Document)
    requires WellFormed(d)
    ensures NoDup(d.pinned) && NoDup(d.unpinned)
    ensures forall y :: y in d.pinned ==> y !in d.unpinned
  {
    NoDupSplit(d.pinned, d.unpinned);
  }

  lemma ElementAt(d: Document, c: Container, k: int)
    requires 0 <= k < |Children(d, c)|
    ensures Offset(d, c) + k < |Elements(d)|
    ensures Elements(d)[Offset(d, c) + k] == Children(d, c)[k]
  {
  }

  lemma ParentOfChild(d: Document, c: Container, k: int)
    requires WellFormed(d) && 0 <= k < |Children(d, c)|
    ensures ParentOf(d, Children(d, c)[k]) == Some(c)
  {
    ChildrenSplit(d);
  }

  lemma DetachAbsent(d: Document, x: TabId)
    requires x !in Elements(d)
    ensures Detach(d, x) == d
  {
    WithoutAbsent(d.pinned, x);
    WithoutAbsent(d.unpinned, x);
  }

  lemma DetachChild(d: Document, c: Container, f: int)
    requires WellFormed(d) && 0 <= f < |Children(d, c)|
    ensures Detach(d, Children(d, c)[f]) == SetChildren(d, c, RemoveAt(Children(d, c), f))
  {
    ChildrenSplit(d);
    var x := Children(d, c)[f];
    WithoutAt(Children(d, c), f);
    if c == PinnedList {
      WithoutAbsent(d.unpinned, x);
    } else {
      WithoutAbsent(d.pinned, x);
    }
  }

  lemma NextSiblingOfLast(d: Document, c: Container)
    requires WellFormed(d) && |Children(d, c)| > 0
    ensures var s := Children(d, c); s[|s| - 1] in Elements(d) && NextSibling(d, s[|s| - 1]) == None
  {
    var s := Children(d, c);
    ParentOfChild(d, c, |s| - 1);
    ChildrenSplit(d);
    IndexOfNoDup(s, |s| - 1);
  }

  lemma InsertBeforeNew(d: Document, c: Container, x: TabId, k: int)
    requires WellFormed(d) && x !in Elements(d) && 0 <= k < |Children(d, c)|
    ensures InsertBefore(d, c, x, Some(Children(d, c)[k]))
         == Ok(SetChildren(d, c, InsertAt(Children(d, c), k, x)))
  {
    ParentOfChild(d, c, k);
    DetachAbsent(d, x);
    ChildrenSplit(d);
    IndexOfNoDup(Children(d, c), k);
  }

  lemma InsertBeforeMoved(d: Document, c: Container, f: int, k: int, j: int)
    requires WellFormed(d) && 0 <= f < |Children(d, c)| && 0 <= k < |Children(d, c)| && f != k
    requires j == if f < k then k - 1 else k
    ensures InsertBefore(d, c, Children(d, c)[f], Some(Children(d, c)[k]))
         == Ok(SetChildren(d, c, Move(Children(d, c), f, j)))
  {
    var s := Children(d, c);
    ChildrenSplit(d);
    ParentOfChild(d, c, k);
    DetachChild(d, c, f);
    IndexAfterRemove(s, f, k);
  }

  lemma AppendNew(d: Document, c: Container, x: TabId)
    requires x !in Elements(d)
    ensures AppendChild(d, c, x) == SetChildren(d, c, Children(d, c) + [x])
  {
    DetachAbsent(d, x);
  }

  lemma AppendMoved(d: Document, c: Container, f: int, t: int)
    requires WellFormed(d) && 0 <= f < |Children(d, c)| && t == |Children(d, c)| - 1
    ensures AppendChild(d, c, Children(d, c)[f]) == SetChildren(d, c, Move(Children(d, c), f, t))
  {
    var s := Children(d, c);
    DetachChild(d, c, f);
    assert Move(s, f, t) == RemoveAt(s, f) + [s[f]];
  }

  /** The reference `_setPos` finds for the flat position just past the end
      of list `c` is null, so the view is appended to `c`. */
  lemma ReferenceAtEnd(d: Document, c: Container, pos: int)
    requires WellFormed(d) && |Elements(d)| > 0
    requires pos == Offset(d, c) + |Children(d, c)|
    ensures Reference(d, c, pos) == Ok(None)
  {
    if c == PinnedList {
      ReferenceAtEndPinned(d, pos);
    } else {
      ReferenceAtEndUnpinned(d, pos);
    }
  }

  lemma ReferenceAtEndPinned(d: Document, pos: int)
    requires WellFormed(d) && |Elements(d)| > 0 && pos == |d.pinned|
    ensures Reference(d, PinnedList, pos) == Ok(None)
  {
    var els := Elements(d);
    ChildrenSplit(d);
    if pos < |els| {
      // the view at `pos` opens the other list
      assert els[pos] == d.unpinned[0];
      assert ParentOf(d, els[pos]) == Some(UnpinnedList);
    }
    if pos > 0 {
      NextSiblingOfLast(d, PinnedList);
      ElementAt(d, PinnedList, pos - 1);
    }
  }

  lemma ReferenceAtEndUnpinned(d: Document, pos: int)
    requires WellFormed(d) && |Elements(d)| > 0 && pos == |Elements(d)|
    ensures Reference(d, UnpinnedList, pos) == Ok(None)
  {
    ReferencePastEnd(d, UnpinnedList, pos);
    LastHasNoSibling(d);
  }

  /** Past the last view, the reference is whatever follows the last view. */
  lemma ReferencePastEnd(d: Document, c: Container, pos: int)
    requires |Elements(d)| > 0 && pos == |Elements(d)|
    ensures Elements(d)[pos - 1] in Elements(d)
    ensures Reference(d, c, pos) == Ok(NextSibling(d, Elements(d)[pos - 1]))
  {
  }

  /** Nothing follows the last view of the document. */
  lemma LastHasNoSibling(d: Document)
    requires WellFormed(d) && |Elements(d)| > 0
    ensures NextSibling(d, Elements(d)[|Elements(d)| - 1]) == None
  {
    var els := Elements(d);
    if |d.unpinned| > 0 {
      NextSiblingOfLast(d, UnpinnedList);
      assert els[|els| - 1] == d.unpinned[|d.unpinned| - 1];
    } else {
      // the unpinned list is empty: the last view is the last pinned one
      NextSiblingOfLast(d, PinnedList);
      assert els[|els| - 1] == d.pinned[|d.pinned| - 1];
    }
  }

  lemma PositionAtReference(d: Document, c: Container, x: TabId, pos: int, r: Option<TabId>)
    requires |Elements(d)| > 0 && Reference(d, c, pos) == Ok(r)
    ensures PositionAt(d, c, x, pos) == InsertBefore(d, c, x, r)
  {
  }

  /** The reference `_setPos` finds for a flat position inside list `c` is
      the view already there. */
  lemma ReferenceInside(d: Document, c: Container, k: int, pos: int)
    requires WellFormed(d) && 0 <= k < |Children(d, c)| && pos == Offset(d, c) + k
    ensures Reference(d, c, pos) == Ok(Some(Children(d, c)[k]))
  {
    ElementAt(d, c, k);
    ParentOfChild(d, c, k);
  }

  lemma PlaceNewInside(d: Document, c: Container, x: TabId, k: int, pos: int)
    requires WellFormed(d) && x !in Elements(d) && 0 <= k < |Children(d, c)|
    requires pos == Offset(d, c) + k
    ensures PositionAt(d, c, x, pos) == Ok(SetChildren(d, c, InsertAt(Children(d, c), k, x)))
  {
    ReferenceInside(d, c, k, pos);
    PositionAtReference(d, c, x, pos, Some(Children(d, c)[k]));
    InsertBeforeNew(d, c, x, k);
  }

  lemma PlaceNewAtEnd(d: Document, c: Container, x: TabId, pos: int)
    requires WellFormed(d) && x !in Elements(d)
    requires pos == Offset(d, c) + |Children(d, c)|
    ensures PositionAt(d, c, x, pos) == Ok(SetChildren(d, c, Children(d, c) + [x]))
  {
    AppendNew(d, c, x);
    if |Elements(d)| > 0 {
      ReferenceAtEnd(d, c, pos);
      PositionAtReference(d, c, x, pos, None);
    }
  }

  /** A view placed at a flat position inside its own list's range, when it
      is not yet in the document (the `_create` case), lands there. */
  lemma PlaceNew(d: Document, c: Container, x: TabId, pos: int)
    requires WellFormed(d) && x !in Elements(d)
    requires Offset(d, c) <= pos <= Offset(d, c) + |Children(d, c)|
    ensures PositionAt(d, c, x, pos)
         == Ok(SetChildren(d, c, InsertAt(Children(d, c), pos - Offset(d, c), x)))
  {
    var s := Children(d, c);
    var k := pos - Offset(d, c);
    if k < |s| {
      PlaceNewInside(d, c, x, k, pos);
    } else {
      PlaceNewAtEnd(d, c, x, pos);
      assert InsertAt(s, k, x) == s + [x];
    }
  }

  /** The same for the pinned list, spelled out on the two lists. */
  lemma PlaceNewPinned(d: Document, x: TabId, pos: int)
    requires WellFormed(d) && x !in Elements(d) && 0 <= pos <= |d.pinned|
    ensures PositionAt(d, PinnedList, x, pos) == Ok(Document(InsertAt(d.pinned, pos, x), d.unpinned))
  {
    PlaceNew(d, PinnedList, x, pos);
  }

  /** The same for the unpinned list, whose flat positions start after the
      pinned views. */
  lemma PlaceNewUnpinned(d: Document, x: TabId, pos: int)
    requires WellFormed(d) && x !in Elements(d) && |d.pinned| <= pos <= |d.pinned| + |d.unpinned|
    ensures PositionAt(d, UnpinnedList, x, pos) == Ok(Document(d.pinned, InsertAt(d.unpinned, pos - |d.pinned|, x)))
  {
    PlaceNew(d, UnpinnedList, x, pos);
  }

  lemma MoveInPlace(s: seq<TabId>, f: int)
    requires 0 <= f < |s|
    ensures Move(s, f, f) == s
  {
  }

  lemma PlaceMovedInPlace(d: Document, c: Container, f: int, pos: int)
    requires WellFormed(d) && 0 <= f < |Children(d, c)| && pos == Offset(d, c) + f
    ensures PositionAt(d, c, Children(d, c)[f], pos)
         == Ok(SetChildren(d, c, Move(Children(d, c), f, f)))
  {
    var s := Children(d, c);
    ReferenceInside(d, c, f, pos);
    PositionAtReference(d, c, s[f], pos, Some(s[f]));
    ParentOfChild(d, c, f);
    assert InsertBefore(d, c, s[f], Some(s[f])) == Ok(d);
    MoveInPlace(s, f);
    assert SetChildren(d, c, s) == d;
  }

  lemma PlaceMovedBackward(d: Document, c: Container, f: int, t: int, pos: int)
    requires WellFormed(d) && 0 <= t < f < |Children(d, c)| && pos == Offset(d, c) + t
    ensures PositionAt(d, c, Children(d, c)[f], pos)
         == Ok(SetChildren(d, c, Move(Children(d, c), f, t)))
  {
    var s := Children(d, c);
    ReferenceInside(d, c, t, pos);
    PositionAtReference(d, c, s[f], pos, Some(s[t]));
    InsertBeforeMoved(d, c, f, t, t);
  }

  lemma PlaceMovedForwardInside(d: Document, c: Container, f: int, t: int, pos: int)
    requires WellFormed(d) && 0 <= f < t && t + 1 < |Children(d, c)|
    requires pos == Offset(d, c) + t + 1
    ensures PositionAt(d, c, Children(d, c)[f], pos)
         == Ok(SetChildren(d, c, Move(Children(d, c), f, t)))
  {
    var s := Children(d, c);
    ReferenceInside(d, c, t + 1, pos);
    PositionAtReference(d, c, s[f], pos, Some(s[t + 1]));
    InsertBeforeMoved(d, c, f, t + 1, t);
  }

  lemma PlaceMovedForwardLast(d: Document, c: Container, f: int, t: int, pos: int)
    requires WellFormed(d) && 0 <= f < t && t + 1 == |Children(d, c)|
    requires pos == Offset(d, c) + t + 1
    ensures PositionAt(d, c, Children(d, c)[f], pos)
         == Ok(SetChildren(d, c, Move(Children(d, c), f, t)))
  {
    var s := Children(d, c);
    ReferenceAtEnd(d, c, pos);
    PositionAtReference(d, c, s[f], pos, None);
    AppendMoved(d, c, f, t);
  }

  /** A view already in the document, moved from flat index `from` to flat
      index `to` inside its own list, lands where the browser put the tab
      when `_setPos` is given `to + 1` for a forward move and `to`
      otherwise. */
  lemma PlaceMoved(d: Document, c: Container, f: int, t: int, pos: int)
    requires WellFormed(d) && 0 <= f < |Children(d, c)| && 0 <= t < |Children(d, c)|
    requires pos == Offset(d, c) + (if f < t then t + 1 else t)
    ensures PositionAt(d, c, Children(d, c)[f], pos) == Ok(SetChildren(d, c, Move(Children(d, c), f, t)))
  {
    if f == t {
      PlaceMovedInPlace(d, c, f, pos);
    } else if f > t {
      PlaceMovedBackward(d, c, f, t, pos);
    } else if t + 1 < |Children(d, c)| {
      PlaceMovedForwardInside(d, c, f, t, pos);
    } else {
      PlaceMovedForwardLast(d, c, f, t, pos);
    }
  }

  // ---------------------------------------------------------------------
  // Event targets

  datatype Role = Spacer | MoreTabs | OtherElement

  /** An element: its classes, its `data-tab-id` attribute and whether it is
      the list-end spacer or the "more tabs" marker. */
  datatype Node = Node(classes: set<string>, tabIdAttr: Option<string>, role: Role)

  predicate IsTabNode(n: Node)
  {
    "tab" in n.classes
  }

  /** Whether some element of `ancestors` is a tab view, climbing one
      `parentElement` at a time. */
  function HasTabAncestor(ancestors: seq<Node>): (b: bool)
    ensures b <==> exists j :: 0 <= j < |ancestors| && IsTabNode(ancestors[j])
  {
    if |ancestors| == 0 then false
    else if IsTabNode(ancestors[0]) then true
    else
      var b := HasTabAncestor(ancestors[1..]);
      assert forall j :: 1 <= j < |ancestors| ==> ancestors[j] == ancestors[1..][j - 1];
      b
  }

  /** `isTabEvent(e, strict)` (identical in both versions of the tab view):
      `path` is the event target followed by its ancestors, empty when the
      event has no target. */
  function IsTabEvent(path: seq<Node>, strict: bool): (b: bool)
    ensures |path| == 0 ==> !b
    ensures strict ==> (b <==> |path| > 0 && IsTabNode(path[0]))
    ensures !strict ==> (b <==> exists j :: 0 <= j < |path| && IsTabNode(path[j]))
  {
    if |path| == 0 then false
    else if IsTabNode(path[0]) then true
    else if strict then false
    else
      var b := HasTabAncestor(path[1..]);
      assert forall j :: 1 <= j < |path| ==> path[j] == path[1..][j - 1];
      b
  }
}
