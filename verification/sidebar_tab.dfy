/** The sidebar's per-tab record (`SideTab` of `src/sidebar/tab.js`): the
    fields the list reads, the view's state flags, and the static helpers
    that map a view or an event target back to a tab id. */
module SidebarTab {
  import opened Js
  import opened Dom
  import opened Browser

  /** The generic add-on icon the browser reports for extension pages. */
  const GenericExtensionIcon := "chrome://mozapps/skin/extensions/extensionGeneric-16.svg"
  const ExtensionIcon := "img/extensions.svg"
  const DefaultIcon := "img/defaultFavicon.svg"

  /** The state of a tab's view element: the icon's background image and
      its `chrome-icon` class, the `sound` class of the icon overlay, and the
      `discarded`, `active`, `wants-attention` and `loading` classes and the
      `notselectedsinceload` attribute of the view itself. */
  datatype TabView = TabView(
    icon: string,
    chromeIcon: bool,
    sound: bool,
    discarded: bool,
    active: bool,
    wantsAttention: bool,
    loading: bool,
    notSelectedAttr: bool)

  /** The fields of a `SideTab` object and its view. `title`, `url`,
      `muted` and `pinned` start out null (`None`/false); `visible` starts
      out true and the view's `hidden` class is its negation, and
      `notSelectedSinceLoad` is the private `_notselectedsinceload` flag. */
  datatype SideTab = SideTab(
    id: TabId,
    index: int,
    hidden: bool,
    title: Option<string>,
    url: Option<string>,
    muted: bool,
    pinned: bool,
    visible: bool,
    notSelectedSinceLoad: bool,
    view: TabView)

  /** The record the constructor leaves before `init` fills it in. */
  function Blank(): SideTab
  {
    SideTab(0, 0, false, None, None, false, false, true, false,
            TabView(DefaultIcon, true, false, false, false, false, false, false))
  }

  // ---------------------------------------------------------------------
  // Field updates

  /** Whether `_updateTitle(title)` marks the tab: it already had a
      (non-empty) title, the new one differs, and it is not the active
      tab. */
  predicate TitleWantsAttention(t: SideTab, title: string)
  {
    NonEmpty(t.title) && t.title != Some(title) && !t.view.active
  }

  /** `_updateTitle`. */
  function UpdateTitle(t: SideTab, title: string): (r: SideTab)
    ensures r.title == Some(title)
    ensures r.view.wantsAttention <==> t.view.wantsAttention || TitleWantsAttention(t, title)
  {
    t.(title := Some(title),
       view := t.view.(wantsAttention := t.view.wantsAttention || TitleWantsAttention(t, title)))
  }

  /** Images the `chrome-icon` class applies to. */
  predicate IsChromeSvg(u: string)
  {
    StartsWith(u, "chrome://") && EndsWith(u, ".svg")
  }

  /** The image `_setIcon` shows for an icon url: the generic add-on icon
      is swapped for the bundled one. */
  function ShownIcon(url: string): (u: string)
    ensures url != GenericExtensionIcon ==> u == url
    ensures url == GenericExtensionIcon ==> u == ExtensionIcon
  {
    if url == GenericExtensionIcon then ExtensionIcon else url
  }

  /** `_setIcon`: the `chrome-icon` class marks `chrome://…svg` images. */
  function SetIcon(v: TabView, url: string): (r: TabView)
    ensures r.icon == ShownIcon(url)
    ensures r.chromeIcon <==> IsChromeSvg(ShownIcon(url))
  {
    var u := ShownIcon(url);
    v.(icon := u, chromeIcon := IsChromeSvg(u))
  }

  /** `_resetIcon`: the default image, which carries the `chrome-icon`
      class. */
  function ResetIcon(v: TabView): (r: TabView)
    ensures r.icon == DefaultIcon && r.chromeIcon
  {
    v.(icon := DefaultIcon, chromeIcon := true)
  }

  /** `_updateIcon`: a missing or empty icon url resets the icon, any other
      url is set. */
  function UpdateIcon(v: TabView, favIconUrl: Option<string>): (r: TabView)
    ensures NonEmpty(favIconUrl) ==> r == SetIcon(v, favIconUrl.value)
    ensures !NonEmpty(favIconUrl) ==> r == ResetIcon(v)
  {
    var given := NonEmpty(favIconUrl);
    var u := if given then ShownIcon(favIconUrl.value) else DefaultIcon;
    v.(icon := u, chromeIcon := !given || IsChromeSvg(u))
  }

  /** The generic add-on icon is shown as the bundled image, which is not a
      chrome icon. */
  lemma SetIconGeneric(v: TabView)
    ensures SetIcon(v, GenericExtensionIcon).icon == ExtensionIcon
    ensures !SetIcon(v, GenericExtensionIcon).chromeIcon
  {
    assert ExtensionIcon[..9][0] == 'i';
    assert !IsChromeSvg(ExtensionIcon);
  }

  /** Setting the icon a second time to the image it now shows changes
      nothing. */
  lemma SetIconIdempotent(v: TabView, url: string)
    ensures SetIcon(SetIcon(v, url), SetIcon(v, url).icon) == SetIcon(v, url)
  {
    if url == GenericExtensionIcon {
      assert ExtensionIcon != GenericExtensionIcon;
    }
  }

  /** `_updateLoading`: starting to load remembers whether the tab was
      inactive; finishing turns that memory into the attribute. */
  function UpdateLoading(t: SideTab, isLoading: bool): (r: SideTab)
    ensures r.view.loading == isLoading
    ensures isLoading ==> r.notSelectedSinceLoad == !t.view.active
                          && r.view.notSelectedAttr == t.view.notSelectedAttr
    ensures !isLoading ==> r.view.notSelectedAttr == t.notSelectedSinceLoad
                           && r.notSelectedSinceLoad == t.notSelectedSinceLoad
  {
    t.(notSelectedSinceLoad := if isLoading then !t.view.active else t.notSelectedSinceLoad,
       view := t.view.(loading := isLoading,
                       notSelectedAttr := if isLoading then t.view.notSelectedAttr else t.notSelectedSinceLoad))
  }

  /** `updateActive`: activation clears the attention and "not selected
      since load" marks; deactivation only drops the active class. */
  function UpdateActive(t: SideTab, active: bool): (r: SideTab)
    ensures r.view.active == active
    ensures active ==> !r.view.wantsAttention && !r.notSelectedSinceLoad && !r.view.notSelectedAttr
    ensures !active ==> r == t.(view := t.view.(active := false))
  {
    t.(notSelectedSinceLoad := !active && t.notSelectedSinceLoad,
       view := t.view.(active := active,
                       notSelectedAttr := !active && t.view.notSelectedAttr,
                       wantsAttention := !active && t.view.wantsAttention))
  }

  /** `updateVisibility`: `visible` and the `hidden` class (its negation)
      both follow `show`. */
  function UpdateVisibility(t: SideTab, show: bool): (r: SideTab)
    ensures r.visible == show
    ensures r.(visible := t.visible) == t
  {
    t.(visible := show)
  }

  /** `_updatePinned`. */
  function UpdatePinned(t: SideTab, pinned: bool): (r: SideTab)
    ensures r.pinned == pinned
    ensures r.(pinned := t.pinned) == t
  {
    t.(pinned := pinned)
  }

  /** A load that starts and completes while the tab stays unselected marks
      it "not selected since load" exactly when it was inactive when the
      load started. */
  lemma LoadCycle(t: SideTab)
    ensures UpdateLoading(UpdateLoading(t, true), false).view.notSelectedAttr == !t.view.active
  {
  }

  /** Selecting the tab while it loads clears the mark for good. */
  lemma LoadCycleSelected(t: SideTab)
    ensures !UpdateLoading(UpdateActive(UpdateLoading(t, true), true), false).view.notSelectedAttr
  {
  }

  /** The active tab never asks for attention on a title change. */
  lemma ActivationClearsAttention(t: SideTab, title: string)
    ensures !UpdateTitle(UpdateActive(t, true), title).view.wantsAttention
  {
  }

  // ---------------------------------------------------------------------
  // init

  /** `init(tabInfo)` on a fresh record: the view carries `data-tab-id`,
      the title goes through `_updateTitle` (no attention, since there was
      no previous title) and the icon through `_updateIcon`. */
  function Init(info: TabInfo): (r: SideTab)
    ensures r.id == info.id && r.index == info.index && r.hidden == info.hidden
    ensures r.title == Some(info.title) && r.url == Some(info.url)
    ensures r.muted == info.muted && r.pinned == info.pinned
    ensures r.visible && !r.view.active && !r.view.wantsAttention
  {
    var t := Blank().(id := info.id, index := info.index, hidden := info.hidden);
    var t := UpdateTitle(t, info.title);
    var t := t.(url := Some(info.url), muted := info.muted);
    var v := UpdateIcon(t.view.(sound := info.audible), info.favIconUrl);
    t.(pinned := info.pinned, view := v.(discarded := info.discarded))
  }

  /** The view `init` builds shows the tab's sound, discarded state and
      icon. */
  lemma InitView(info: TabInfo)
    ensures var v := Init(info).view;
      v.sound == info.audible && v.discarded == info.discarded && !v.loading
      && v == UpdateIcon(v, info.favIconUrl)
  {
  }

  // ---------------------------------------------------------------------
  // onUpdate, one step per key of the change set

  /** `if (changeInfo.hasOwnProperty("hidden")) this.hidden = …`. */
  function HiddenStep(t: SideTab, hidden: Option<bool>): SideTab
  {
    t.(hidden := Or(hidden, t.hidden))
  }

  /** The `title` key goes through `_updateTitle`. */
  function TitleStep(t: SideTab, title: Option<string>): (r: SideTab)
    ensures title.Some? ==> r == UpdateTitle(t, title.value)
    ensures title.None? ==> r == t
  {
    var marks := title.Some? && TitleWantsAttention(t, title.value);
    t.(title := if title.Some? then title else t.title,
       view := t.view.(wantsAttention := t.view.wantsAttention || marks))
  }

  /** The icon is re-read from the tab every time. */
  function IconStep(t: SideTab, favIconUrl: Option<string>): SideTab
  {
    t.(view := UpdateIcon(t.view, favIconUrl))
  }

  /** `url`, `audible`, `mutedInfo`, `discarded`: each present key sets its
      field. */
  function UrlStep(t: SideTab, url: Option<string>): SideTab
  {
    t.(url := if url.Some? then url else t.url)
  }

  function AudibleStep(t: SideTab, audible: Option<bool>): SideTab
  {
    t.(view := t.view.(sound := Or(audible, t.view.sound)))
  }

  function MutedStep(t: SideTab, muted: Option<bool>): SideTab
  {
    t.(muted := Or(muted, t.muted))
  }

  function DiscardedStep(t: SideTab, discarded: Option<bool>): SideTab
  {
    t.(view := t.view.(discarded := Or(discarded, t.view.discarded)))
  }

  /** `status`: "loading" starts a load, "complete" finishes one, any other
      status changes nothing. */
  function StatusStep(t: SideTab, status: Option<Status>): (r: SideTab)
    ensures status == Some(Loading) ==> r == UpdateLoading(t, true)
    ensures status == Some(Complete) ==> r == UpdateLoading(t, false)
    ensures status != Some(Loading) && status != Some(Complete) ==> r == t
  {
    var starts := status == Some(Loading);
    var ends := status == Some(Complete);
    t.(notSelectedSinceLoad := if starts then !t.view.active else t.notSelectedSinceLoad,
       view := t.view.(loading := if starts then true else if ends then false else t.view.loading,
                       notSelectedAttr := if ends then t.notSelectedSinceLoad else t.view.notSelectedAttr))
  }

  /** The `pinned` key goes through `_updatePinned`. */
  function PinnedStep(t: SideTab, pinned: Option<bool>): (r: SideTab)
    ensures pinned.Some? ==> r == UpdatePinned(t, pinned.value)
    ensures pinned.None? ==> r == t
  {
    t.(pinned := Or(pinned, t.pinned))
  }

  /** `onUpdate(changeInfo, tab)`: the keys of the change set are applied
      in the order of the source, with the icon re-read from `tab` after
      the title. When the caller leaves `tab` out, reading `tab.favIconUrl`
      throws a TypeError after `hidden` and `title` have been applied, and
      nothing after that runs. */
  function OnUpdate(t: SideTab, change: ChangeInfo, tab: Option<TabInfo>): (r: Step<SideTab>)
    ensures tab.None? <==> r.thrown == Some(TypeError)
    ensures tab.Some? ==> r.thrown.None?
    ensures tab.None? ==> r.state.pinned == t.pinned && r.state.url == t.url && r.state.muted == t.muted
    ensures tab.None? ==> r.state.view.icon == t.view.icon && r.state.view.loading == t.view.loading
  {
    var head := TitleStep(HiddenStep(t, change.hidden), change.title);
    if tab.None? then Step(head, Some(TypeError))
    else
      var t := IconStep(head, tab.value.favIconUrl);
      var t := AudibleStep(UrlStep(t, change.url), change.audible);
      var t := DiscardedStep(MutedStep(t, change.muted), change.discarded);
      Step(PinnedStep(StatusStep(t, change.status), change.pinned), None)
  }

  /** Every key present in the change set is applied. */
  lemma OnUpdateApplies(t: SideTab, change: ChangeInfo, tab: TabInfo)
    ensures var r := OnUpdate(t, change, Some(tab)).state;
      (change.hidden.Some? ==> r.hidden == change.hidden.value)
      && (change.title.Some? ==> r.title == change.title)
      && (change.url.Some? ==> r.url == change.url)
      && (change.muted.Some? ==> r.muted == change.muted.value)
      && (change.pinned.Some? ==> r.pinned == change.pinned.value)
  {
  }

  /** The view side of a change set: sound, discarded state, the loading
      class for a "loading" or "complete" status, and the icon. */
  lemma OnUpdateAppliesView(t: SideTab, change: ChangeInfo, tab: TabInfo)
    ensures var v := OnUpdate(t, change, Some(tab)).state.view;
      (change.audible.Some? ==> v.sound == change.audible.value)
      && (change.discarded.Some? ==> v.discarded == change.discarded.value)
      && (change.status == Some(Loading) ==> v.loading)
      && (change.status == Some(Complete) ==> !v.loading)
      && v.icon == UpdateIcon(t.view, tab.favIconUrl).icon
  {
  }

  /** The id, index, visibility and active class never change, and the
      pinned state changes only through its key. */
  lemma OnUpdateKeepsIdentity(t: SideTab, change: ChangeInfo, tab: TabInfo)
    ensures var r := OnUpdate(t, change, Some(tab)).state;
      r.id == t.id && r.index == t.index && r.visible == t.visible
      && r.view.active == t.view.active
      && (change.pinned.None? ==> r.pinned == t.pinned)
  {
  }

  /** A key missing from the change set leaves its field alone. */
  lemma OnUpdateKeeps(t: SideTab, change: ChangeInfo, tab: TabInfo)
    ensures var r := OnUpdate(t, change, Some(tab)).state;
      (change.hidden.None? ==> r.hidden == t.hidden)
      && (change.title.None? ==> r.title == t.title && r.view.wantsAttention == t.view.wantsAttention)
      && (change.url.None? ==> r.url == t.url)
      && (change.muted.None? ==> r.muted == t.muted)
  {
  }

  /** The view side: sound, discarded state and the loading marks stay when
      their keys are missing. */
  lemma OnUpdateKeepsView(t: SideTab, change: ChangeInfo, tab: TabInfo)
    ensures var r := OnUpdate(t, change, Some(tab)).state;
      (change.audible.None? ==> r.view.sound == t.view.sound)
      && (change.discarded.None? ==> r.view.discarded == t.view.discarded)
      && (change.status.None? ==> (r.view.loading == t.view.loading
                                  && r.notSelectedSinceLoad == t.notSelectedSinceLoad
                                  && r.view.notSelectedAttr == t.view.notSelectedAttr))
  {
  }

  // Re-applying a key whose value the record already holds changes nothing.

  lemma HiddenFixed(x: SideTab, hidden: Option<bool>)
    requires hidden.Some? ==> x.hidden == hidden.value
    ensures HiddenStep(x, hidden) == x
  {
  }

  lemma TitleFixed(x: SideTab, title: Option<string>)
    requires title.Some? ==> x.title == title
    ensures TitleStep(x, title) == x
  {
  }

  lemma IconFixed(x: SideTab, favIconUrl: Option<string>)
    requires x.view == UpdateIcon(x.view, favIconUrl)
    ensures IconStep(x, favIconUrl) == x
  {
  }

  lemma UrlFixed(x: SideTab, url: Option<string>)
    requires url.Some? ==> x.url == url
    ensures UrlStep(x, url) == x
  {
  }

  lemma AudibleFixed(x: SideTab, audible: Option<bool>)
    requires audible.Some? ==> x.view.sound == audible.value
    ensures AudibleStep(x, audible) == x
  {
  }

  lemma MutedFixed(x: SideTab, muted: Option<bool>)
    requires muted.Some? ==> x.muted == muted.value
    ensures MutedStep(x, muted) == x
  {
  }

  lemma DiscardedFixed(x: SideTab, discarded: Option<bool>)
    requires discarded.Some? ==> x.view.discarded == discarded.value
    ensures DiscardedStep(x, discarded) == x
  {
  }

  lemma StatusFixed(x: SideTab, status: Option<Status>)
    requires status == Some(Loading) ==> x.view.loading && x.notSelectedSinceLoad == !x.view.active
    requires status == Some(Complete) ==> !x.view.loading && x.view.notSelectedAttr == x.notSelectedSinceLoad
    ensures StatusStep(x, status) == x
  {
  }

  lemma PinnedFixed(x: SideTab, pinned: Option<bool>)
    requires pinned.Some? ==> x.pinned == pinned.value
    ensures PinnedStep(x, pinned) == x
  {
  }

  /** A record that already holds every value of the change set and the
      icon of `tab` is left as it is by `onUpdate`. */
  lemma OnUpdateFixed(x: SideTab, change: ChangeInfo, tab: TabInfo)
    requires change.hidden.Some? ==> x.hidden == change.hidden.value
    requires change.title.Some? ==> x.title == change.title
    requires x.view == UpdateIcon(x.view, tab.favIconUrl)
    requires change.url.Some? ==> x.url == change.url
    requires change.audible.Some? ==> x.view.sound == change.audible.value
    requires change.muted.Some? ==> x.muted == change.muted.value
    requires change.discarded.Some? ==> x.view.discarded == change.discarded.value
    requires change.status == Some(Loading) ==> x.view.loading && x.notSelectedSinceLoad == !x.view.active
    requires change.status == Some(Complete) ==> !x.view.loading && x.view.notSelectedAttr == x.notSelectedSinceLoad
    requires change.pinned.Some? ==> x.pinned == change.pinned.value
    ensures OnUpdate(x, change, Some(tab)) == Step(x, None)
  {
    HiddenFixed(x, change.hidden);
    TitleFixed(x, change.title);
    IconFixed(x, tab.favIconUrl);
    UrlFixed(x, change.url);
    AudibleFixed(x, change.audible);
    MutedFixed(x, change.muted);
    DiscardedFixed(x, change.discarded);
    StatusFixed(x, change.status);
    PinnedFixed(x, change.pinned);
  }

  /** An update with an empty change set only re-reads the icon. */
  lemma OnUpdateNoChange(t: SideTab, tab: TabInfo)
    ensures OnUpdate(t, NoChange, Some(tab)) == Step(IconStep(t, tab.favIconUrl), None)
  {
    var i := IconStep(t, tab.favIconUrl);
    HiddenFixed(t, None);
    TitleFixed(t, None);
    UrlFixed(i, None);
    AudibleFixed(i, None);
    MutedFixed(i, None);
    DiscardedFixed(i, None);
    StatusFixed(i, None);
    PinnedFixed(i, None);
  }

  /** The icon of the record after an update is the one `tab` asks for. */
  lemma OnUpdateIcon(t: SideTab, change: ChangeInfo, tab: TabInfo)
    ensures var v := OnUpdate(t, change, Some(tab)).state.view;
      v == UpdateIcon(v, tab.favIconUrl)
  {
  }

  /** Delivering the same update twice leaves the record as delivering it
      once. */
  lemma OnUpdateIdempotent(t: SideTab, change: ChangeInfo, tab: TabInfo)
    ensures var once := OnUpdate(t, change, Some(tab)).state;
      OnUpdate(once, change, Some(tab)) == Step(once, None)
  {
    var once := OnUpdate(t, change, Some(tab)).state;
    OnUpdateApplies(t, change, tab);
    OnUpdateAppliesView(t, change, tab);
    OnUpdateIcon(t, change, tab);
    OnUpdateLoadMarks(t, change, tab);
    OnUpdateFixed(once, change, tab);
  }

  /** After a "loading" status the mark records the (unchanged) active
      class; after "complete" the attribute copies the mark. */
  lemma OnUpdateLoadMarks(t: SideTab, change: ChangeInfo, tab: TabInfo)
    ensures var r := OnUpdate(t, change, Some(tab)).state;
      (change.status == Some(Loading) ==> r.notSelectedSinceLoad == !r.view.active)
      && (change.status == Some(Complete) ==> r.view.notSelectedAttr == r.notSelectedSinceLoad)
  {
  }

  // ---------------------------------------------------------------------
  // Static helpers

  /** `tabIdForView(el)`: null for a missing element, otherwise `parseInt`
      of its `data-tab-id` attribute. */
  function TabIdForView(el: Option<Node>): (r: JsValue)
    ensures el.None? ==> r == Null
    ensures el.Some? ==> r == ParseAttr(el.value.tabIdAttr)
  {
    if el.None? then Null else ParseAttr(el.value.tabIdAttr)
  }

  /** The element `init` builds for a tab: a tab node whose `data-tab-id`
      is the id written as a string. */
  function ViewOf(t: SideTab): (n: Node)
    ensures IsTabNode(n)
  {
    Node({"tab"}, Some(IntToString(t.id)), OtherElement)
  }

  /** Reading the id back from a tab's view gives the tab's id. */
  lemma TabIdForViewOf(t: SideTab)
    ensures TabIdForView(Some(ViewOf(t))) == Num(t.id)
  {
    ParseIntToString(t.id);
  }

  /** Whether `parseInt` of the node's `data-tab-id` is truthy. */
  predicate HasTabId(n: Node)
  {
    Truthy(ParseAttr(n.tabIdAttr))
  }

  /** The id the climb from `path[i]` finds: the parsed `data-tab-id` of the
      first node from `i` on whose parsed id is truthy, or null when there
      is none. */
  function ClimbFrom(path: seq<Node>, i: nat): (r: JsValue)
    requires i <= |path|
    ensures (forall k :: i <= k < |path| ==> !HasTabId(path[k])) ==> r == Null
    ensures forall k :: i <= k < |path| && HasTabId(path[k])
                        && (forall j :: i <= j < k ==> !HasTabId(path[j]))
                        ==> r == ParseAttr(path[k].tabIdAttr)
    decreases |path| - i
  {
    if i == |path| then Null
    else if HasTabId(path[i]) then ParseAttr(path[i].tabIdAttr)
    else ClimbFrom(path, i + 1)
  }

  /** The result of `tabIdForEvent` as a climb: with no target, reading
      `parentElement` of null throws. */
  function EventTabId(path: seq<Node>): (r: Result<JsValue>)
  {
    if |path| == 0 then Err(TypeError) else Ok(ClimbFrom(path, 0))
  }

  /** `tabIdForEvent(e)`: climbs from the target through its ancestors
      (`path`) while the parsed id is falsy (missing, NaN or 0). With no
      target, `el.parentElement` is read from null and throws; when the
      climb runs out of ancestors the result is `tabIdForView(null)`, null. */
  method TabIdForEvent(path: seq<Node>) returns (r: Result<JsValue>)
    ensures r == EventTabId(path)
    ensures |path| == 0 <==> r == Err(TypeError)
  {
    if |path| == 0 {
      return Err(TypeError);
    }
    var i := 0;
    while i < |path| && !Truthy(TabIdForView(Some(path[i])))
      invariant 0 <= i <= |path|
      invariant ClimbFrom(path, i) == ClimbFrom(path, 0)
    {
      i := i + 1;
    }
    if i == |path| {
      return Ok(TabIdForView(None));
    }
    return Ok(TabIdForView(Some(path[i])));
  }

  /** An event on a part of a tab's view (a child carrying no id) resolves to
      that tab. */
  method TabIdForEventOnView(t: SideTab, child: Node) returns (r: Result<JsValue>)
    requires t.id > 0 && !HasTabId(child)
    ensures r == Ok(Num(t.id))
  {
    TabIdForViewOf(t);
    var path := [child, ViewOf(t)];
    assert HasTabId(path[1]) && !HasTabId(path[0]);
    r := TabIdForEvent(path);
  }
}
