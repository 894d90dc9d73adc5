/** The tab record of the older, single-list tab center (`src/tab.js`): the
    fields `SideTab` keeps and the state its view shows, with the updaters
    the list calls and the static helpers that read a tab id back from an
    event target. */
module LegacyTab {
  import opened Js
  import opened Dom
  import opened Browser

  const DefaultIcon := "img/defaultFavicon.svg"
  const SpinnerIcon := "img/loading-spinner.svg"

  /** A tab record together with what its view shows: the `active`,
      `hidden` and `pinned` classes of the view (`visible` is the negation
      of `hidden`), the `sound` and `muted` classes of the icon overlay, the
      icon's `src`, the meta image's thumbnail (None when it has no
      `has-thumbnail` class) and the container identity colour (None when
      the context view has no `hasContext` class). */
  datatype SideTab = SideTab(
    id: TabId,
    title: string,
    url: string,
    muted: bool,
    pinned: bool,
    visible: bool,
    active: bool,
    sound: bool,
    icon: string,
    thumbnail: Option<string>,
    context: Option<string>)

  /** What `create(tabInfo)` leaves behind on a fresh record: the
      constructor's visible, inactive view, then the title, url, sound,
      muted, icon and pinned state of the tab. */
  function Create(info: TabInfo): (r: SideTab)
    ensures r.id == info.id && r.title == info.title && r.url == info.url
    ensures r.sound == info.audible && r.muted == info.muted && r.pinned == info.pinned
    ensures r.visible && !r.active && r.thumbnail.None? && r.context.None?
    ensures r.icon == if NonEmpty(info.favIconUrl) then info.favIconUrl.value else DefaultIcon
  {
    var blank := SideTab(info.id, "", "", false, false, true, false, false, "", None, None);
    var t := UpdateTitle(blank, info.title);
    var t := UpdateURL(t, info.url);
    var t := UpdateAudible(t, info.audible);
    var t := UpdateMuted(t, info.muted);
    var t := UpdateIcon(t, info.favIconUrl);
    UpdatePinned(t, info.pinned)
  }

  /** `updateTitle(title)`. */
  function UpdateTitle(t: SideTab, title: string): SideTab
  {
    t.(title := title)
  }

  /** `updateURL(url)`; the host line the view shows is left out. */
  function UpdateURL(t: SideTab, url: string): SideTab
  {
    t.(url := url)
  }

  /** `updateActive(active)`: toggles the view's `active` class. */
  function UpdateActive(t: SideTab, active: bool): SideTab
  {
    t.(active := active)
  }

  /** `updateVisibility(show)`: the view is hidden exactly when not shown. */
  function UpdateVisibility(t: SideTab, show: bool): SideTab
  {
    t.(visible := show)
  }

  /** `updateAudible(audible)`: only the overlay's `sound` class changes. */
  function UpdateAudible(t: SideTab, audible: bool): SideTab
  {
    t.(sound := audible)
  }

  /** `updatedMuted(muted)`: the field and the overlay's `muted` class. */
  function UpdateMuted(t: SideTab, muted: bool): SideTab
  {
    t.(muted := muted)
  }

  /** `_setIcon(url)`. */
  function SetIcon(t: SideTab, url: string): SideTab
  {
    t.(icon := url)
  }

  /** `_resetIcon()`: the default favicon. */
  function ResetIcon(t: SideTab): (r: SideTab)
    ensures r.icon == DefaultIcon && r.(icon := t.icon) == t
  {
    SetIcon(t, DefaultIcon)
  }

  /** `setSpinner()`: the loading spinner replaces the icon. */
  function SetSpinner(t: SideTab): (r: SideTab)
    ensures r.icon == SpinnerIcon && r.(icon := t.icon) == t
  {
    SetIcon(t, SpinnerIcon)
  }

  /** `updateIcon(favIconUrl)`: a non-empty url is shown, anything else
      falls back to the default favicon. */
  function UpdateIcon(t: SideTab, favIconUrl: Option<string>): (r: SideTab)
    ensures NonEmpty(favIconUrl) ==> r.icon == favIconUrl.value
    ensures !NonEmpty(favIconUrl) ==> r.icon == DefaultIcon
    ensures r.(icon := t.icon) == t
  {
    if NonEmpty(favIconUrl) then SetIcon(t, favIconUrl.value) else ResetIcon(t)
  }

  /** `updatePinned(pinned)`: pinning also drops the thumbnail; unpinning
      keeps it. */
  function UpdatePinned(t: SideTab, pinned: bool): (r: SideTab)
    ensures r.pinned == pinned
    ensures pinned ==> r.thumbnail.None?
    ensures !pinned ==> r.thumbnail == t.thumbnail
    ensures r.(pinned := t.pinned, thumbnail := t.thumbnail) == t
  {
    var t' := t.(pinned := pinned);
    if pinned then ResetThumbnail(t') else t'
  }

  /** `updateContext(context)`: a missing identity changes nothing;
      otherwise its colour is shown. */
  function UpdateContext(t: SideTab, color: Option<string>): (r: SideTab)
    ensures color.None? ==> r == t
    ensures color.Some? ==> r == t.(context := color)
  {
    if color.None? then t else t.(context := color)
  }

  /** `updateThumbnail(thumbnail)`. */
  function UpdateThumbnail(t: SideTab, thumbnail: string): SideTab
  {
    t.(thumbnail := Some(thumbnail))
  }

  /** `resetThumbnail()`. */
  function ResetThumbnail(t: SideTab): SideTab
  {
    t.(thumbnail := None)
  }

  /** Setting a field to the value it already holds changes nothing: after
      `create`, the list's own `setTitle`, `setURL`, `setMuted`,
      `setAudible`, icon update and `setPinned` with the same tab
      information leave the record as it was. */
  lemma {:induction false} CreateRepeatFixed(info: TabInfo)
    ensures var t := Create(info);
            UpdatePinned(UpdateIcon(UpdateAudible(UpdateMuted(UpdateURL(UpdateTitle(t, info.title), info.url), info.muted), info.audible), info.favIconUrl), info.pinned) == t
  {
    var t := Create(info);
    var t1 := UpdateIcon(UpdateAudible(UpdateMuted(UpdateURL(UpdateTitle(t, info.title), info.url), info.muted), info.audible), info.favIconUrl);
    assert t1 == t;
    if info.pinned {
      assert t.thumbnail.None?;
    }
  }

  /** Pinning a tab and restoring its pinned state leaves it as before
      except that its thumbnail is gone. */
  lemma PinRoundTrip(t: SideTab)
    ensures UpdatePinned(UpdatePinned(t, true), t.pinned) == t.(thumbnail := None)
  {
  }

  /** The last thumbnail wins, and a pinned tab never keeps one. */
  lemma ThumbnailLastWins(t: SideTab, a: string, b: string)
    ensures UpdateThumbnail(UpdateThumbnail(t, a), b) == UpdateThumbnail(t, b)
    ensures UpdatePinned(UpdateThumbnail(t, a), true).thumbnail.None?
  {
  }

  // ---------------------------------------------------------------------
  // Static helpers

  /** `tabIdForView(el)`: null (None) for a missing element, otherwise the
      raw `data-tab-id` attribute, itself null when absent. */
  function TabIdForView(el: Option<Node>): (r: Option<string>)
    ensures el.None? ==> r.None?
    ensures el.Some? ==> r == el.value.tabIdAttr
  {
    if el.None? then None else el.value.tabIdAttr
  }

  /** The attribute the climb from `path[i]` stops at: the first non-empty
      `data-tab-id` from `i` on, or null when every one is missing or
      empty. Unlike the later sidebar, an attribute such as "0" or "x"
      stops the climb even though it parses to a falsy value. */
  function FirstIdFrom(path: seq<Node>, i: nat): (r: Option<string>)
    requires i <= |path|
    ensures (forall k :: i <= k < |path| ==> !NonEmpty(path[k].tabIdAttr)) ==> r.None?
    ensures forall k :: i <= k < |path| && NonEmpty(path[k].tabIdAttr)
                        && (forall j :: i <= j < k ==> !NonEmpty(path[j].tabIdAttr))
                        ==> r == path[k].tabIdAttr
    decreases |path| - i
  {
    if i == |path| then None
    else if NonEmpty(path[i].tabIdAttr) then path[i].tabIdAttr
    else FirstIdFrom(path, i + 1)
  }

  /** `tabIdForEvent(e)`: climbs from the target while the attribute is
      falsy, then parses what it stopped at; running out of ancestors parses
      null, which gives NaN. With no target, the climb reads
      `parentElement` of null and throws. */
  method TabIdForEvent(path: seq<Node>) returns (r: Result<JsValue>)
    ensures |path| == 0 ==> r == Err(TypeError)
    ensures |path| > 0 ==> r == Ok(ParseAttr(FirstIdFrom(path, 0)))
    ensures |path| > 0 && (forall k :: 0 <= k < |path| ==> !NonEmpty(path[k].tabIdAttr)) ==> r == Ok(NaN)
  {
    if |path| == 0 {
      return Err(TypeError);
    }
    var i := 0;
    while i < |path| && !NonEmpty(TabIdForView(Some(path[i])))
      invariant 0 <= i <= |path|
      invariant FirstIdFrom(path, i) == FirstIdFrom(path, 0)
    {
      i := i + 1;
    }
    var attr := if i == |path| then TabIdForView(None) else TabIdForView(Some(path[i]));
    return Ok(ParseAttr(attr));
  }
}
