/** The generic popup menu of `src/contextmenu.js`: the nodes `show` builds
    from the items, the clamping of `positionMenu`, and `hide`. The layout
    engine's measurements (`offsetWidth`, `offsetHeight`, `innerWidth`,
    `innerHeight`) are parameters. */
module ContextMenu {
  import opened Js

  /** Added to both measured dimensions of the menu so that it does not
      stick to the sides of the sidebar. */
  const OverflowMenuMargin := 6

  /** The label that turns an item into a rule instead of an entry. */
  const SeparatorLabel := "separator"

  /** One element of the `items` array: its label (`title`) and its `onCommandFn`
      (None when absent); `C` is whatever running the command does. */
  datatype Item<C> = Item(title: string, onCommand: Option<C>)

  /** A child of the menu's `ul`: an `hr`, or an `li` with its text and
      the command its click listener runs (None: no listener). */
  datatype MenuNode<C> = Rule | Entry(text: string, onClick: Option<C>)

  /** The node `show` builds for one item. */
  function RenderItem<C>(it: Item<C>): MenuNode<C>
  {
    if it.title == SeparatorLabel then Rule else Entry(it.title, it.onCommand)
  }

  /** The children `show` appends to the menu, one per item and in order. */
  function Render<C>(items: seq<Item<C>>): (nodes: seq<MenuNode<C>>)
    ensures |nodes| == |items|
    ensures forall i :: 0 <= i < |items| ==> (nodes[i].Rule? <==> items[i].title == SeparatorLabel)
    ensures forall i :: 0 <= i < |items| && nodes[i].Entry? ==> nodes[i].text != SeparatorLabel
  {
    seq(|items|, i requires 0 <= i < |items| => RenderItem(items[i]))
  }

  /** The item a node was built from, as far as the node tells: a rule
      reads back as a separator without a command. */
  function ItemOf<C>(n: MenuNode<C>): Item<C>
  {
    match n
    case Rule => Item(SeparatorLabel, None)
    case Entry(text, c) => Item(text, c)
  }

  function Unrender<C>(nodes: seq<MenuNode<C>>): (items: seq<Item<C>>)
    ensures |items| == |nodes|
  {
    seq(|nodes|, i requires 0 <= i < |nodes| => ItemOf(nodes[i]))
  }

  /** The menu loses exactly the commands given to separators: reading the
      items back from the nodes restores them iff no separator carries a
      command. */
  lemma RenderRoundTrip<C>(items: seq<Item<C>>)
    ensures Unrender(Render(items)) == items <==>
            forall i :: 0 <= i < |items| && items[i].title == SeparatorLabel ==> items[i].onCommand.None?
  {
    var back := Unrender(Render(items));
    if forall i :: 0 <= i < |items| && items[i].title == SeparatorLabel ==> items[i].onCommand.None? {
      forall i | 0 <= i < |items|
        ensures back[i] == items[i]
      {
      }
    } else {
      var i :| 0 <= i < |items| && items[i].title == SeparatorLabel && items[i].onCommand.Some?;
      assert back[i] != items[i];
    }
  }

  /** Rendering is done item by item, so it distributes over joined
      lists. */
  lemma RenderAppend<C>(a: seq<Item<C>>, b: seq<Item<C>>)
    ensures Render(a + b) == Render(a) + Render(b)
  {
  }

  // ---------------------------------------------------------------------
  // Position

  /** One coordinate of `positionMenu`: the click position, unless the menu
      would then overflow the window, in which case its far edge is put on
      the window's edge. Of the coordinates that keep the menu inside the
      window and not beyond the click, it is the largest. */
  function Clamp(click: int, size: int, window: int): (p: int)
    ensures p + size <= window
    ensures p <= click
    ensures p == click || p + size == window
  {
    if click + size > window then window - size else click
  }

  /** The click position stays as it is exactly when the menu fits after
      it. */
  lemma ClampKeepsFittingClick(click: int, size: int, window: int)
    ensures Clamp(click, size, window) == click <==> click + size <= window
  {
  }

  /** Nothing keeps the coordinate from going negative except the menu
      fitting into the window: for a click inside the window, the menu
      starts inside it iff it is no larger than the window. */
  lemma ClampInside(click: int, size: int, window: int)
    requires 0 <= click
    ensures 0 <= Clamp(click, size, window) <==> size <= window
  {
  }

  /** The layout engine's answers: the rendered menu's `offsetWidth` and
      `offsetHeight` and the window's `innerWidth` and `innerHeight`. */
  datatype Layout = Layout(offsetWidth: int, offsetHeight: int, innerWidth: int, innerHeight: int)

  /** The `top` and `left` style of the menu. */
  datatype Position = Position(top: int, left: int)

  /** `positionMenu()`: both dimensions grow by the margin, then each
      coordinate is clamped on its own. */
  function PositionMenu(clickX: int, clickY: int, m: Layout): (pos: Position)
    ensures pos.top + m.offsetHeight + OverflowMenuMargin <= m.innerHeight
    ensures pos.left + m.offsetWidth + OverflowMenuMargin <= m.innerWidth
    ensures pos.top <= clickY && pos.left <= clickX
    ensures pos.top == clickY <==> clickY + m.offsetHeight + OverflowMenuMargin <= m.innerHeight
    ensures pos.left == clickX <==> clickX + m.offsetWidth + OverflowMenuMargin <= m.innerWidth
  {
    Position(Clamp(clickY, m.offsetHeight + OverflowMenuMargin, m.innerHeight),
             Clamp(clickX, m.offsetWidth + OverflowMenuMargin, m.innerWidth))
  }

  // ---------------------------------------------------------------------
  // The menu object

  /** A `ul` the menu created: its children, its position and whether it
      is still in the document. */
  datatype Root<C> = Root(children: seq<MenuNode<C>>, pos: Position, attached: bool)

  /** A `ContextMenu` object: click position and items from the
      constructor, and `rootNode`, null (None) until `show`. `strays`
      counts menus an earlier `show` left in the document that `rootNode`
      no longer refers to. */
  datatype Menu<C> = Menu(clickX: int, clickY: int, items: seq<Item<C>>, root: Option<Root<C>>, strays: nat)

  /** The constructor. */
  function NewMenu<C>(clickX: int, clickY: int, items: seq<Item<C>>): (m: Menu<C>)
    ensures m.root.None? && m.strays == 0 && m.items == items
  {
    Menu(clickX, clickY, items, None, 0)
  }

  /** The number of menus in the document. */
  function InDocument<C>(m: Menu<C>): nat
  {
    m.strays + if m.root.Some? && m.root.value.attached then 1 else 0
  }

  /** `show()`: a new `ul` holding the rendered items goes into the
      document at the clamped position; an earlier root stays where it
      was. */
  function Show<C>(m: Menu<C>, layout: Layout): (r: Menu<C>)
    ensures r.root.Some? && r.root.value.attached
    ensures r.root.value.children == Render(m.items)
    ensures r.root.value.pos == PositionMenu(m.clickX, m.clickY, layout)
    ensures InDocument(r) == InDocument(m) + 1
    ensures r.(root := m.root, strays := m.strays) == m
  {
    var placed := Root(Render(m.items), PositionMenu(m.clickX, m.clickY, layout), true);
    m.(root := Some(placed), strays := InDocument(m))
  }

  /** `hide()`: removes the current root, if any, from the document. */
  function Hide<C>(m: Menu<C>): (r: Menu<C>)
    ensures m.root.None? ==> r == m
    ensures m.root.Some? ==> r.root.Some? && !r.root.value.attached
    ensures m.root.Some? ==> r.root.value.(attached := m.root.value.attached) == m.root.value
    ensures r.(root := m.root) == m
    ensures InDocument(r) == m.strays
  {
    if m.root.None? then m
    else m.(root := Some(m.root.value.(attached := false)))
  }

  /** A menu shown once and hidden leaves nothing in the document, while a
      menu shown twice leaves its first `ul` behind. */
  lemma ShowHideBalance<C>(x: int, y: int, items: seq<Item<C>>, a: Layout, b: Layout)
    ensures InDocument(Hide(Show(NewMenu(x, y, items), a))) == 0
    ensures InDocument(Hide(Show(Show(NewMenu(x, y, items), a), b))) == 1
  {
  }

  /** What a click on the `i`-th child of the shown menu runs: the command
      of an entry's listener, nothing for a rule, a missing child or a menu
      that is not in the document. */
  function ClickAt<C>(m: Menu<C>, i: int): (r: Option<C>)
    ensures r.Some? ==> m.root.Some? && m.root.value.attached
  {
    if m.root.Some? && m.root.value.attached && 0 <= i < |m.root.value.children|
       && m.root.value.children[i].Entry?
    then m.root.value.children[i].onClick
    else None
  }

  /** After `show`, a click on a child runs exactly its item's command,
      and only for items that are not separators. */
  lemma ClickAfterShow<C>(m: Menu<C>, layout: Layout, i: int)
    requires 0 <= i < |m.items|
    ensures ClickAt(Show(m, layout), i) ==
            if m.items[i].title == SeparatorLabel then None else m.items[i].onCommand
    ensures ClickAt(Hide(Show(m, layout)), i).None?
  {
  }
}
