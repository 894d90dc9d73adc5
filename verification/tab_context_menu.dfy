/** The context menu of one tab in the sidebar (`src/sidebar/tabcontextmenu.js`)
    and the props the list opens it with (`_onContextMenu` of
    `src/sidebar/tablist.js`): the items it offers, what each runs, and
    when it closes. Labels are the message names handed to
    `i18n.getMessage`; the translation itself is left out. */
module TabContextMenu {
  import opened Js
  import opened Dom
  import opened SidebarTab
  import opened ContextMenu
  import SidebarTabList
  import SidebarDrop

  const ReloadTabLabel := "contextMenuReloadTab"
  const MuteTabLabel := "contextMenuMuteTab"
  const UnmuteTabLabel := "contextMenuUnmuteTab"
  const PinTabLabel := "contextMenuPinTab"
  const UnpinTabLabel := "contextMenuUnpinTab"
  const DuplicateTabLabel := "contextMenuDuplicateTab"
  const MoveTabToNewWindowLabel := "contextMenuMoveTabToNewWindow"
  const ReloadAllTabsLabel := "contextMenuReloadAllTabs"
  const CloseTabsUnderneathLabel := "contextMenuCloseTabsUnderneath"
  const CloseOtherTabsLabel := "contextMenuCloseOtherTabs"
  const UndoCloseTabLabel := "contextMenuUndoCloseTab"
  const CloseTabLabel := "contextMenuCloseTab"

  /** The list's methods it binds into the props. */
  datatype Callback =
    | ReloadAllTabs
    | CloseTabsUnderneath(tabId: TabId)
    | CloseAllTabsExcept(tabId: TabId)
    | HasRecentlyClosedTabs
    | UndoCloseTab

  /** What an entry's command does: a `browser` call on the menu's tab, or
      a call of one of the props' callbacks. */
  datatype Command =
    | ReloadTab(tabId: TabId)
    | SetMuted(tabId: TabId, muted: bool)
    | SetPinned(tabId: TabId, pinned: bool)
    | DuplicateTab(tabId: TabId)
    | MoveToNewWindow(tabId: TabId)
    | RemoveTab(tabId: TabId)
    | Call(callback: Callback)

  /** The props object: the tab, the click position, `canMoveToNewWindow`
      and the function-valued properties by name. `onClose` is modelled by
      counting its calls. */
  datatype Props = Props(tab: SideTab, posX: int, posY: int, canMoveToNewWindow: bool,
                         callbacks: map<string, Callback>)

  /** `this._props[key]` used as a command: absent keys read undefined,
      which leaves the entry without a command. */
  function CommandProp(props: Props, key: string): (c: Option<Command>)
    ensures c.Some? <==> key in props.callbacks
  {
    if key in props.callbacks then Some(Call(props.callbacks[key])) else None
  }

  /** The labels of a list of items, in order. */
  function Labels(items: seq<Item<Command>>): (r: seq<string>)
    ensures |r| == |items|
    ensures forall i :: 0 <= i < |items| ==> r[i] == items[i].title
  {
    seq(|items|, i requires 0 <= i < |items| => items[i].title)
  }

  /** The five runs of `_createContextMenuItems(tab)` between its
      conditionals: the tab's own entries, the optional move entry, reload
      all, the optional close-many entries, and the closing entries. */
  function TabEntries(props: Props): seq<Item<Command>>
  {
    var tab := props.tab;
    [Item(ReloadTabLabel, Some(ReloadTab(tab.id))),
     Item(if tab.muted then UnmuteTabLabel else MuteTabLabel, Some(SetMuted(tab.id, !tab.muted))),
     Item(SeparatorLabel, None),
     Item(if tab.pinned then UnpinTabLabel else PinTabLabel, Some(SetPinned(tab.id, !tab.pinned))),
     Item(DuplicateTabLabel, Some(DuplicateTab(tab.id)))]
  }

  function MoveEntries(props: Props): seq<Item<Command>>
  {
    if props.canMoveToNewWindow then [Item(MoveTabToNewWindowLabel, Some(MoveToNewWindow(props.tab.id)))] else []
  }

  function AllTabsEntries(props: Props): seq<Item<Command>>
  {
    [Item(SeparatorLabel, None), Item(ReloadAllTabsLabel, CommandProp(props, "reloadAllTabs"))]
  }

  /** The close-many entries, the close-underneath command read from the
      property named `underneathKey`. */
  function CloseManyEntries(props: Props, underneathKey: string): seq<Item<Command>>
  {
    if props.tab.pinned then []
    else [Item(CloseTabsUnderneathLabel, CommandProp(props, underneathKey)),
          Item(CloseOtherTabsLabel, CommandProp(props, "closeOtherTabs"))]
  }

  function ClosingEntries(props: Props): seq<Item<Command>>
  {
    [Item(SeparatorLabel, None),
     Item(UndoCloseTabLabel, CommandProp(props, "undoCloseTab")),
     Item(CloseTabLabel, Some(RemoveTab(props.tab.id)))]
  }

  /** `_createContextMenuItems(tab)`, with the close-underneath entry's
      command read from the property named `underneathKey`. */
  function ItemsReading(props: Props, underneathKey: string): seq<Item<Command>>
  {
    TabEntries(props) + MoveEntries(props) + AllTabsEntries(props)
    + CloseManyEntries(props, underneathKey) + ClosingEntries(props)
  }

  /** The shape every item list has, whichever property the
      close-underneath command comes from: reload first, undo-close and
      close last, three separators, the toggles requesting the opposite of
      the tab's state, the move entry iff the tab may move, and the two
      close-many entries iff the tab is not pinned. */
  predicate MenuShape(props: Props, items: seq<Item<Command>>)
  {
    var tab := props.tab;
    |items| == 10 + (if props.canMoveToNewWindow then 1 else 0) + (if tab.pinned then 0 else 2)
    && items[0] == Item(ReloadTabLabel, Some(ReloadTab(tab.id)))
    && items[1].title == (if tab.muted then UnmuteTabLabel else MuteTabLabel)
    && items[1].onCommand == Some(SetMuted(tab.id, !tab.muted))
    && items[3].title == (if tab.pinned then UnpinTabLabel else PinTabLabel)
    && items[3].onCommand == Some(SetPinned(tab.id, !tab.pinned))
    && items[|items| - 2] == Item(UndoCloseTabLabel, CommandProp(props, "undoCloseTab"))
    && items[|items| - 1] == Item(CloseTabLabel, Some(RemoveTab(tab.id)))
    && multiset(Labels(items))[SeparatorLabel] == 3
    && (MoveTabToNewWindowLabel in Labels(items) <==> props.canMoveToNewWindow)
    && (CloseTabsUnderneathLabel in Labels(items) <==> !tab.pinned)
    && (CloseOtherTabsLabel in Labels(items) <==> !tab.pinned)
  }

  /** The labels of the optional entries, present or not. */
  function MoveLabels(props: Props): seq<string>
  {
    if props.canMoveToNewWindow then [MoveTabToNewWindowLabel] else []
  }

  function CloseManyLabels(props: Props): seq<string>
  {
    if props.tab.pinned then [] else [CloseTabsUnderneathLabel, CloseOtherTabsLabel]
  }

  /** The labels of joined lists are the joined labels. */
  lemma LabelsAppend(a: seq<Item<Command>>, b: seq<Item<Command>>)
    ensures Labels(a + b) == Labels(a) + Labels(b)
  {
  }

  /** The item labels, run by run. */
  lemma LabelsOfItems(props: Props, key: string)
    ensures Labels(ItemsReading(props, key)) ==
            [ReloadTabLabel, if props.tab.muted then UnmuteTabLabel else MuteTabLabel, SeparatorLabel,
             if props.tab.pinned then UnpinTabLabel else PinTabLabel, DuplicateTabLabel]
            + MoveLabels(props) + [SeparatorLabel, ReloadAllTabsLabel]
            + CloseManyLabels(props) + [SeparatorLabel, UndoCloseTabLabel, CloseTabLabel]
  {
    var a, b, c, d, e := TabEntries(props), MoveEntries(props), AllTabsEntries(props),
                         CloseManyEntries(props, key), ClosingEntries(props);
    LabelsAppend(a, b);
    LabelsAppend(a + b, c);
    LabelsAppend(a + b + c, d);
    LabelsAppend(a + b + c + d, e);
    assert Labels(a) == [ReloadTabLabel, if props.tab.muted then UnmuteTabLabel else MuteTabLabel, SeparatorLabel,
                         if props.tab.pinned then UnpinTabLabel else PinTabLabel, DuplicateTabLabel];
    assert Labels(b) == MoveLabels(props);
    assert Labels(c) == [SeparatorLabel, ReloadAllTabsLabel];
    assert Labels(d) == CloseManyLabels(props);
    assert Labels(e) == [SeparatorLabel, UndoCloseTabLabel, CloseTabLabel];
  }

  /** One separator between two labels that are not separators. */
  lemma OneSeparatorBetween(a: seq<string>, b: seq<string>)
    requires SeparatorLabel !in a && SeparatorLabel !in b
    ensures multiset(a + [SeparatorLabel] + b)[SeparatorLabel] == 1
  {
    assert multiset(a + [SeparatorLabel] + b) == multiset(a) + multiset{SeparatorLabel} + multiset(b);
  }

  lemma TabLabelsSeparators(props: Props)
    ensures multiset([ReloadTabLabel, if props.tab.muted then UnmuteTabLabel else MuteTabLabel, SeparatorLabel,
                      if props.tab.pinned then UnpinTabLabel else PinTabLabel, DuplicateTabLabel])[SeparatorLabel] == 1
  {
    var m := if props.tab.muted then UnmuteTabLabel else MuteTabLabel;
    var p := if props.tab.pinned then UnpinTabLabel else PinTabLabel;
    assert |m| != |SeparatorLabel| && |p| != |SeparatorLabel|;
    OneSeparatorBetween([ReloadTabLabel, m], [p, DuplicateTabLabel]);
    assert [ReloadTabLabel, m, SeparatorLabel, p, DuplicateTabLabel] == [ReloadTabLabel, m] + [SeparatorLabel] + [p, DuplicateTabLabel];
  }

  /** The separators of each run: one in each fixed run, none in the
      optional ones. */
  lemma TabEntriesSeparators(props: Props)
    ensures multiset(Labels(TabEntries(props)))[SeparatorLabel] == 1
  {
    assert Labels(TabEntries(props))
        == [ReloadTabLabel, if props.tab.muted then UnmuteTabLabel else MuteTabLabel, SeparatorLabel,
            if props.tab.pinned then UnpinTabLabel else PinTabLabel, DuplicateTabLabel];
    TabLabelsSeparators(props);
  }

  lemma OptionalEntriesSeparators(props: Props, key: string)
    ensures multiset(Labels(MoveEntries(props)))[SeparatorLabel] == 0
    ensures multiset(Labels(CloseManyEntries(props, key)))[SeparatorLabel] == 0
  {
    assert Labels(MoveEntries(props)) == MoveLabels(props);
    assert Labels(CloseManyEntries(props, key)) == CloseManyLabels(props);
  }

  lemma AllTabsEntriesSeparators(props: Props)
    ensures multiset(Labels(AllTabsEntries(props)))[SeparatorLabel] == 1
  {
    assert Labels(AllTabsEntries(props)) == [] + [SeparatorLabel] + [ReloadAllTabsLabel];
    OneSeparatorBetween([], [ReloadAllTabsLabel]);
  }

  lemma ClosingEntriesSeparators(props: Props)
    ensures multiset(Labels(ClosingEntries(props)))[SeparatorLabel] == 1
  {
    assert Labels(ClosingEntries(props)) == [] + [SeparatorLabel] + [UndoCloseTabLabel, CloseTabLabel];
    OneSeparatorBetween([], [UndoCloseTabLabel, CloseTabLabel]);
  }

  /** Three separators, whatever the tab. */
  lemma SeparatorCount(props: Props, key: string)
    ensures multiset(Labels(ItemsReading(props, key)))[SeparatorLabel] == 3
  {
    var a, b, c, d, e := TabEntries(props), MoveEntries(props), AllTabsEntries(props),
                         CloseManyEntries(props, key), ClosingEntries(props);
    TabEntriesSeparators(props);
    OptionalEntriesSeparators(props, key);
    AllTabsEntriesSeparators(props);
    ClosingEntriesSeparators(props);
    LabelsAppend(a, b);
    LabelsAppend(a + b, c);
    LabelsAppend(a + b + c, d);
    LabelsAppend(a + b + c + d, e);
  }

  /** The optional entries are there exactly when their condition holds. */
  lemma OptionalEntries(props: Props, key: string)
    ensures MoveTabToNewWindowLabel in Labels(ItemsReading(props, key)) <==> props.canMoveToNewWindow
    ensures CloseTabsUnderneathLabel in Labels(ItemsReading(props, key)) <==> !props.tab.pinned
    ensures CloseOtherTabsLabel in Labels(ItemsReading(props, key)) <==> !props.tab.pinned
  {
    LabelsOfItems(props, key);
  }

  /** The fixed entries at both ends. */
  lemma FixedEntries(props: Props, key: string)
    ensures var items := ItemsReading(props, key);
            |items| == 10 + (if props.canMoveToNewWindow then 1 else 0) + (if props.tab.pinned then 0 else 2)
            && items[0] == Item(ReloadTabLabel, Some(ReloadTab(props.tab.id)))
            && items[1].title == (if props.tab.muted then UnmuteTabLabel else MuteTabLabel)
            && items[1].onCommand == Some(SetMuted(props.tab.id, !props.tab.muted))
            && items[3].title == (if props.tab.pinned then UnpinTabLabel else PinTabLabel)
            && items[3].onCommand == Some(SetPinned(props.tab.id, !props.tab.pinned))
            && items[|items| - 2] == Item(UndoCloseTabLabel, CommandProp(props, "undoCloseTab"))
            && items[|items| - 1] == Item(CloseTabLabel, Some(RemoveTab(props.tab.id)))
  {
  }

  lemma ItemsShape(props: Props, key: string)
    ensures MenuShape(props, ItemsReading(props, key))
  {
    FixedEntries(props, key);
    SeparatorCount(props, key);
    OptionalEntries(props, key);
  }

  /** Every entry labelled `name` runs `c`. */
  predicate RunsFor(items: seq<Item<Command>>, name: string, c: Option<Command>)
  {
    forall i :: 0 <= i < |items| && items[i].title == name ==> items[i].onCommand == c
  }

  lemma RunsForAppend(a: seq<Item<Command>>, b: seq<Item<Command>>, name: string, c: Option<Command>)
    requires RunsFor(a, name, c) && RunsFor(b, name, c)
    ensures RunsFor(a + b, name, c)
  {
    forall i | 0 <= i < |a + b| && (a + b)[i].title == name
      ensures (a + b)[i].onCommand == c
    {
      if i >= |a| {
        assert (a + b)[i] == b[i - |a|];
      }
    }
  }

  /** Every browser call an entry makes is on the tab `id`. */
  predicate OnTab(items: seq<Item<Command>>, id: TabId)
  {
    forall i :: 0 <= i < |items| && items[i].onCommand.Some? && !items[i].onCommand.value.Call? ==>
      items[i].onCommand.value.tabId == id
  }

  lemma OnTabAppend(a: seq<Item<Command>>, b: seq<Item<Command>>, id: TabId)
    requires OnTab(a, id) && OnTab(b, id)
    ensures OnTab(a + b, id)
  {
    forall i | 0 <= i < |a + b| && (a + b)[i].onCommand.Some? && !(a + b)[i].onCommand.value.Call?
      ensures (a + b)[i].onCommand.value.tabId == id
    {
      if i >= |a| {
        assert (a + b)[i] == b[i - |a|];
      }
    }
  }

  /** The entries whose command is a callback run the callback under their
      own name, and the close-underneath entry the one named `key`; every
      other entry acts on the menu's tab. */
  lemma {:induction false} ItemsCommands(props: Props, key: string)
    ensures RunsFor(ItemsReading(props, key), CloseTabsUnderneathLabel, CommandProp(props, key))
    ensures RunsFor(ItemsReading(props, key), CloseOtherTabsLabel, CommandProp(props, "closeOtherTabs"))
    ensures RunsFor(ItemsReading(props, key), ReloadAllTabsLabel, CommandProp(props, "reloadAllTabs"))
    ensures OnTab(ItemsReading(props, key), props.tab.id)
  {
    var a, b, c, d, e := TabEntries(props), MoveEntries(props), AllTabsEntries(props),
                         CloseManyEntries(props, key), ClosingEntries(props);
    var pieces := [a, b, c, d, e];
    var labels := [CloseTabsUnderneathLabel, CloseOtherTabsLabel, ReloadAllTabsLabel];
    var cmds := [CommandProp(props, key), CommandProp(props, "closeOtherTabs"), CommandProp(props, "reloadAllTabs")];
    for k := 0 to 3
      invariant forall m :: 0 <= m < k ==> RunsFor(a + b + c + d + e, labels[m], cmds[m])
    {
      assert RunsFor(a, labels[k], cmds[k]);
      assert RunsFor(b, labels[k], cmds[k]);
      assert RunsFor(c, labels[k], cmds[k]);
      assert RunsFor(d, labels[k], cmds[k]);
      assert RunsFor(e, labels[k], cmds[k]);
      RunsForAppend(a, b, labels[k], cmds[k]);
      RunsForAppend(a + b, c, labels[k], cmds[k]);
      RunsForAppend(a + b + c, d, labels[k], cmds[k]);
      RunsForAppend(a + b + c + d, e, labels[k], cmds[k]);
    }
    assert RunsFor(a + b + c + d + e, labels[0], cmds[0]);
    assert RunsFor(a + b + c + d + e, labels[1], cmds[1]);
    assert RunsFor(a + b + c + d + e, labels[2], cmds[2]);
    OnTabAppend(a, b, props.tab.id);
    OnTabAppend(a + b, c, props.tab.id);
    OnTabAppend(a + b + c, d, props.tab.id);
    OnTabAppend(a + b + c + d, e, props.tab.id);
  }

  /** `_createContextMenuItems(tab)` as written: the close-underneath entry
      takes its command from `closeTabsAfter`. */
  function CreateContextMenuItemsAsWritten(props: Props): (items: seq<Item<Command>>)
    ensures MenuShape(props, items)
    ensures RunsFor(items, CloseTabsUnderneathLabel, CommandProp(props, "closeTabsAfter"))
  {
    ItemsShape(props, "closeTabsAfter");
    ItemsCommands(props, "closeTabsAfter");
    ItemsReading(props, "closeTabsAfter")
  }

  /** `_createContextMenuItems(tab)` reading the close-underneath command
      from the property the list actually passes, `closeTabsUnderneath`;
      the browser calls all act on the menu's tab. */
  function CreateContextMenuItems(props: Props): (items: seq<Item<Command>>)
    ensures MenuShape(props, items)
    ensures RunsFor(items, CloseTabsUnderneathLabel, CommandProp(props, "closeTabsUnderneath"))
    ensures RunsFor(items, CloseOtherTabsLabel, CommandProp(props, "closeOtherTabs"))
    ensures RunsFor(items, ReloadAllTabsLabel, CommandProp(props, "reloadAllTabs"))
    ensures OnTab(items, props.tab.id)
  {
    ItemsShape(props, "closeTabsUnderneath");
    ItemsCommands(props, "closeTabsUnderneath");
    ItemsReading(props, "closeTabsUnderneath")
  }

  // ---------------------------------------------------------------------
  // The props the list passes

  /** `_onContextMenu(e)` after the event was found to be on a tab with id
      `id`: the props built from the list's state. A tab the list does not
      track reads undefined, and building the items then throws. */
  function OnContextMenu(l: SidebarTabList.TabList, id: JsValue, posX: int, posY: int): (r: Result<Props>)
    ensures r.Ok? <==> SidebarDrop.TabById(l, id).Some?
    ensures r.Ok? ==> r.value.tab == l.tabs[id.n] && r.value.posX == posX && r.value.posY == posY
    ensures r.Ok? ==> (r.value.canMoveToNewWindow <==> |l.tabs| > 1)
    ensures r.Ok? ==> "closeTabsUnderneath" in r.value.callbacks && "closeTabsAfter" !in r.value.callbacks
    ensures r.Err? ==> r.error == TypeError
  {
    match SidebarDrop.TabById(l, id)
    case None => Err(TypeError)
    case Some(tab) =>
      Ok(Props(tab, posX, posY, SidebarTabList.CanMoveToNewWindow(l),
               map["reloadAllTabs" := ReloadAllTabs,
                   "closeTabsUnderneath" := CloseTabsUnderneath(id.n),
                   "closeOtherTabs" := CloseAllTabsExcept(id.n),
                   "canUndoCloseTab" := HasRecentlyClosedTabs,
                   "undoCloseTab" := UndoCloseTab]))
  }

  /** A click on an entry whose label always carries `c`, once the menu
      is shown, runs `c`. */
  lemma ClickEntry(items: seq<Item<Command>>, name: string, c: Option<Command>, x: int, y: int, layout: Layout)
    requires name in Labels(items) && name != SeparatorLabel && RunsFor(items, name, c)
    ensures exists i :: 0 <= i < |items| && items[i].title == name
              && ClickAt(Show(NewMenu(x, y, items), layout), i) == c
  {
    var i :| 0 <= i < |items| && Labels(items)[i] == name;
    ClickAfterShow(NewMenu(x, y, items), layout, i);
  }

  /** As written, the menu the list opens for an unpinned tab offers
      "close tabs underneath", but the entry has no command, so a click on
      it does nothing. */
  lemma CloseUnderneathDropped(l: SidebarTabList.TabList, id: JsValue, x: int, y: int, layout: Layout)
    requires OnContextMenu(l, id, x, y).Ok? && !l.tabs[id.n].pinned
    ensures var items := CreateContextMenuItemsAsWritten(OnContextMenu(l, id, x, y).value);
            exists i :: 0 <= i < |items| && items[i].title == CloseTabsUnderneathLabel
              && ClickAt(Show(NewMenu(x, y, items), layout), i).None?
  {
    var props := OnContextMenu(l, id, x, y).value;
    var items := CreateContextMenuItemsAsWritten(props);
    assert CommandProp(props, "closeTabsAfter") == None;
    ClickEntry(items, CloseTabsUnderneathLabel, None, x, y, layout);
  }

  /** Reading the property the list passes, a click on "close tabs
      underneath" calls the list's `_closeTabsUnderneath` for the menu's
      tab, and "close other tabs" its `_closeAllTabsExcept`. */
  lemma CloseUnderneathWired(l: SidebarTabList.TabList, id: JsValue, x: int, y: int, layout: Layout)
    requires OnContextMenu(l, id, x, y).Ok? && !l.tabs[id.n].pinned
    ensures var items := CreateContextMenuItems(OnContextMenu(l, id, x, y).value);
            exists i :: 0 <= i < |items| && items[i].title == CloseTabsUnderneathLabel
              && ClickAt(Show(NewMenu(x, y, items), layout), i) == Some(Call(CloseTabsUnderneath(id.n)))
    ensures var items := CreateContextMenuItems(OnContextMenu(l, id, x, y).value);
            exists j :: 0 <= j < |items| && items[j].title == CloseOtherTabsLabel
              && ClickAt(Show(NewMenu(x, y, items), layout), j) == Some(Call(CloseAllTabsExcept(id.n)))
  {
    var props := OnContextMenu(l, id, x, y).value;
    var items := CreateContextMenuItems(props);
    assert CommandProp(props, "closeTabsUnderneath") == Some(Call(CloseTabsUnderneath(id.n)));
    assert CommandProp(props, "closeOtherTabs") == Some(Call(CloseAllTabsExcept(id.n)));
    ClickEntry(items, CloseTabsUnderneathLabel, Some(Call(CloseTabsUnderneath(id.n))), x, y, layout);
    ClickEntry(items, CloseOtherTabsLabel, Some(Call(CloseAllTabsExcept(id.n))), x, y, layout);
  }

  /** What the bound callbacks send to the browser, where the model has
      them: closing tabs underneath or all others. */
  function Perform(l: SidebarTabList.TabList, c: Callback): (r: Option<Result<Browser.Request>>)
    ensures c.CloseTabsUnderneath? ==> r == Some(SidebarTabList.CloseTabsUnderneath(l, c.tabId))
    ensures c.CloseAllTabsExcept? ==> r == Some(Ok(SidebarTabList.CloseAllTabsExcept(l, c.tabId)))
    ensures !c.CloseTabsUnderneath? && !c.CloseAllTabsExcept? ==> r.None?
  {
    match c
    case CloseTabsUnderneath(id) => Some(SidebarTabList.CloseTabsUnderneath(l, id))
    case CloseAllTabsExcept(id) => Some(Ok(SidebarTabList.CloseAllTabsExcept(l, id)))
    case _ => None
  }

  // ---------------------------------------------------------------------
  // Closing

  /** The window events the menu listens to. */
  datatype WindowEvent = KeyUp(key: string) | Click(button: int) | Blur

  /** The predicates `_setupListeners` binds: an Escape key release, a
      primary-button click, or any blur. */
  predicate ClosesOn(e: WindowEvent)
  {
    match e
    case KeyUp(key) => key == "Escape"
    case Click(button) => button == 0
    case Blur => true
  }

  /** A `TabContextMenu`: its props, its popup, whether its window
      listeners are installed, and how often it has called `onClose`. */
  datatype TabMenu = TabMenu(props: Props, popup: Menu<Command>, listening: bool, closeCalls: nat)

  /** The constructor followed by `show()`: the popup opens at the click
      with the items and the listeners are installed. */
  function ShowMenu(props: Props, layout: Layout): (s: TabMenu)
    ensures s.listening && s.closeCalls == 0
    ensures s.popup.items == CreateContextMenuItems(props)
    ensures InDocument(s.popup) == 1
  {
    var popup := NewMenu(props.posX, props.posY, CreateContextMenuItems(props));
    TabMenu(props, Show(popup, layout), true, 0)
  }

  /** `close()`: listeners removed, popup hidden, `onClose` called. */
  function Close(s: TabMenu): (r: TabMenu)
    ensures !r.listening && r.closeCalls == s.closeCalls + 1
    ensures InDocument(r.popup) == s.popup.strays
  {
    s.(listening := false, popup := Hide(s.popup), closeCalls := s.closeCalls + 1)
  }

  /** One window event reaching the menu's listeners. */
  function OnWindowEvent(s: TabMenu, e: WindowEvent): (r: TabMenu)
    ensures !s.listening ==> r == s
    ensures s.listening && ClosesOn(e) ==> r == Close(s)
    ensures !ClosesOn(e) ==> r == s
  {
    if s.listening && ClosesOn(e) then Close(s) else s
  }

  /** A sequence of window events. */
  function OnWindowEvents(s: TabMenu, es: seq<WindowEvent>): TabMenu
    decreases |es|
  {
    if |es| == 0 then s else OnWindowEvents(OnWindowEvent(s, es[0]), es[1..])
  }

  /** Whether some event of the sequence closes a menu. */
  predicate AnyCloses(es: seq<WindowEvent>)
  {
    exists i :: 0 <= i < |es| && ClosesOn(es[i])
  }

  /** After `show`, the window events call `onClose` once if any of them
      closes the menu and never otherwise; a closed menu is out of the
      document and listens no more. */
  lemma {:induction false} CloseOnce(props: Props, layout: Layout, es: seq<WindowEvent>)
    ensures var s := OnWindowEvents(ShowMenu(props, layout), es);
            s.closeCalls == (if AnyCloses(es) then 1 else 0)
            && (AnyCloses(es) <==> !s.listening)
            && (AnyCloses(es) <==> InDocument(s.popup) == 0)
  {
    EventsFrom(ShowMenu(props, layout), es);
  }

  /** The induction behind `CloseOnce`, from any state with one menu in
      the document. */
  lemma {:induction false} EventsFrom(s: TabMenu, es: seq<WindowEvent>)
    requires s.popup.strays == 0 && s.popup.root.Some?
    requires s.listening <==> s.popup.root.value.attached
    ensures var r := OnWindowEvents(s, es);
            r.closeCalls == s.closeCalls + (if s.listening && AnyCloses(es) then 1 else 0)
            && (r.listening <==> s.listening && !AnyCloses(es))
            && (InDocument(r.popup) == 0 <==> !r.listening)
    decreases |es|
  {
    if |es| == 0 {
    } else {
      var s' := OnWindowEvent(s, es[0]);
      EventsFrom(s', es[1..]);
      if AnyCloses(es[1..]) {
        var i :| 0 <= i < |es[1..]| && ClosesOn(es[1..][i]);
        assert ClosesOn(es[i + 1]);
      }
      if AnyCloses(es) && !ClosesOn(es[0]) {
        var i :| 0 <= i < |es| && ClosesOn(es[i]);
        assert ClosesOn(es[1..][i - 1]);
      }
    }
  }
}
