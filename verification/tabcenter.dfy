/** The sidebar page's owner object (`src/sidebar/tabcenter.js`): the
    preferences it reads at start-up and applies to the page, the change
    sets it receives later, the `openTab` callback it hands the list and
    the top menu, and `search`. */
module TabCenter {
  import opened Js
  import opened Browser
  import SidebarTabList

  // ---------------------------------------------------------------------
  // Preferences

  /** The preferences with their defaults: no custom style sheet, the
      light theme, the dynamic compact mode and compact pinned tabs. */
  const Defaults: map<string, JsValue> :=
    map["customCSS" := Str(""), "darkTheme" := Bool(false),
        "compactModeMode" := Num(1), "compactPins" := Bool(true)]

  /** `_readPrefs()`: `storage.local.get(defaults)` answers each key of the
      defaults object, with the stored value where there is one. */
  function ReadPrefs(area: map<string, JsValue>): (r: map<string, JsValue>)
    ensures r.Keys == Defaults.Keys
    ensures forall k :: k in r && k in area ==> r[k] == area[k]
    ensures forall k :: k in r && k !in area ==> r[k] == Defaults[k]
  {
    map k | k in Defaults :: if k in area then area[k] else Defaults[k]
  }

  /** The part of the page the preferences set: the text of the
      `customCSS` style element and the body's `dark-theme` class. */
  datatype Page = Page(customCSS: string, darkTheme: bool)

  /** The text an `innerHTML` assignment leaves: null becomes the empty
      string, anything else its string conversion. */
  function CssText(v: JsValue): (s: string)
    ensures v.Str? ==> s == v.s
    ensures v.Null? ==> s == ""
  {
    if v.Null? then "" else ToString(v)
  }

  /** `_applyPrefs(prefs)`: only the two page preferences are read, each
      only when the object has it as an own property. */
  function ApplyPrefs(page: Page, prefs: map<string, JsValue>): (r: Page)
    ensures "customCSS" in prefs ==> r.customCSS == CssText(prefs["customCSS"])
    ensures "customCSS" !in prefs ==> r.customCSS == page.customCSS
    ensures "darkTheme" in prefs ==> (r.darkTheme <==> Truthy(prefs["darkTheme"]))
    ensures "darkTheme" !in prefs ==> r.darkTheme == page.darkTheme
  {
    var p := if "customCSS" in prefs then page.(customCSS := CssText(prefs["customCSS"])) else page;
    if "darkTheme" in prefs then p.(darkTheme := Truthy(prefs["darkTheme"])) else p
  }

  /** Keys other than the two page preferences make no difference. */
  lemma ApplyPrefsReadsTwoKeys(page: Page, prefs: map<string, JsValue>, other: map<string, JsValue>)
    requires "customCSS" !in other && "darkTheme" !in other
    ensures ApplyPrefs(page, prefs + other) == ApplyPrefs(page, prefs)
  {
  }

  /** A fresh profile: the page gets an empty style sheet and the light
      theme, and the list the dynamic compact mode with compact pinned
      tabs. */
  lemma FreshProfile(page: Page)
    ensures ReadPrefs(map[]) == Defaults
    ensures ApplyPrefs(page, ReadPrefs(map[])) == Page("", false)
    ensures SidebarTabList.New(ReadPrefs(map[])).display.compactModeMode == Num(1)
    ensures SidebarTabList.New(ReadPrefs(map[])).display.compactPins
  {
    assert ReadPrefs(map[]) == Defaults;
    SidebarTabList.NewCompactMode(Defaults);
  }

  // ---------------------------------------------------------------------
  // Change sets

  /** One entry of a `storage.onChanged` change set. */
  datatype StorageChange = StorageChange(oldValue: JsValue, newValue: JsValue)

  /** `unwrapChanges(changes)`: each changed key with its new value. */
  function UnwrapChanges(changes: map<string, StorageChange>): (r: map<string, JsValue>)
    ensures r.Keys == changes.Keys
    ensures forall k :: k in r ==> r[k] == changes[k].newValue
  {
    map k | k in changes :: changes[k].newValue
  }

  /** The change set `storage.local.set(items)` reports: every key set,
      with the stored value before (undefined when there was none) and the
      one after. */
  function SetChanges(area: map<string, JsValue>, items: map<string, JsValue>): (c: map<string, StorageChange>)
    ensures c.Keys == items.Keys
  {
    map k | k in items :: StorageChange(Prop(area, k), items[k])
  }

  /** Unwrapping a change set recovers exactly the values that were set,
      so laying it over the old storage gives the new storage. */
  lemma UnwrapSetChanges(area: map<string, JsValue>, items: map<string, JsValue>)
    ensures UnwrapChanges(SetChanges(area, items)) == items
    ensures area + UnwrapChanges(SetChanges(area, items)) == area + items
  {
  }

  /** The value a change set gives the list's `_onPrefsChanged` for a key,
      if the key changed. */
  function NewValue(changes: map<string, StorageChange>, key: string): (v: Option<JsValue>)
    ensures v.Some? <==> key in changes
  {
    if key in changes then Some(changes[key].newValue) else None
  }

  /** After the change, each preference reads the value set, or the one
      read before when it was not set. */
  lemma ReadAfterSet(area: map<string, JsValue>, items: map<string, JsValue>)
    ensures forall k :: k in Defaults && k in items ==> ReadPrefs(area + items)[k] == items[k]
    ensures forall k :: k in Defaults && k !in items ==> ReadPrefs(area + items)[k] == ReadPrefs(area)[k]
  {
  }

  /** The page half of `LiveUpdateAgreesWithReload`. */
  lemma {:induction false} LivePageAgrees(page: Page, area: map<string, JsValue>, items: map<string, JsValue>)
    ensures ApplyPrefs(ApplyPrefs(page, ReadPrefs(area)), UnwrapChanges(SetChanges(area, items)))
              == ApplyPrefs(page, ReadPrefs(area + items))
  {
    UnwrapSetChanges(area, items);
    ReadAfterSet(area, items);
    var p1 := ApplyPrefs(ApplyPrefs(page, ReadPrefs(area)), items);
    var p2 := ApplyPrefs(page, ReadPrefs(area + items));
    assert p1.customCSS == p2.customCSS;
    assert p1.darkTheme == p2.darkTheme;
  }

  /** The list half of `LiveUpdateAgreesWithReload`. */
  lemma {:induction false} LiveDisplayAgrees(area: map<string, JsValue>, items: map<string, JsValue>)
    ensures var changes := SetChanges(area, items);
            var live := SidebarTabList.OnPrefsChanged(SidebarTabList.New(ReadPrefs(area)),
                          NewValue(changes, "compactModeMode"), NewValue(changes, "compactPins"));
            live.display == SidebarTabList.New(ReadPrefs(area + items)).display
  {
    ReadAfterSet(area, items);
  }

  /** Applying a change set live leaves the page and the list's compact
      settings as a sidebar opened afresh after the change would have
      them. */
  lemma {:induction false} LiveUpdateAgreesWithReload(page: Page, area: map<string, JsValue>, items: map<string, JsValue>)
    ensures var changes := SetChanges(area, items);
            ApplyPrefs(ApplyPrefs(page, ReadPrefs(area)), UnwrapChanges(changes))
              == ApplyPrefs(page, ReadPrefs(area + items))
    ensures var changes := SetChanges(area, items);
            var live := SidebarTabList.OnPrefsChanged(SidebarTabList.New(ReadPrefs(area)),
                          NewValue(changes, "compactModeMode"), NewValue(changes, "compactPins"));
            live.display == SidebarTabList.New(ReadPrefs(area + items)).display
  {
    LivePageAgrees(page, area, items);
    LiveDisplayAgrees(area, items);
  }

  // ---------------------------------------------------------------------
  // Opening tabs and searching

  /** `_openTab(props)`: with a truthy `afterCurrent` the new tab goes just
      after the first tab `tabs.query({active: true})` reports (an empty
      answer makes `[0].index` throw); `afterCurrent` itself is never
      passed on. `props` None is the omitted argument, which defaults to
      an empty object; `activeIndexes` are the indexes of the active tabs
      the query reports, in order. */
  function OpenTab(props: Option<map<string, JsValue>>, activeIndexes: seq<int>): (r: Result<Request>)
    ensures var p := Or(props, map[]);
            r.Err? <==> Truthy(Prop(p, "afterCurrent")) && |activeIndexes| == 0
    ensures r.Err? ==> r.error == TypeError
    ensures r.Ok? ==> r.value.CreateTab? && "afterCurrent" !in r.value.props
    ensures var p := Or(props, map[]);
            r.Ok? && Truthy(Prop(p, "afterCurrent")) ==>
              r.value.props == (p - {"afterCurrent"})["index" := Num(activeIndexes[0] + 1)]
    ensures var p := Or(props, map[]);
            r.Ok? && !Truthy(Prop(p, "afterCurrent")) ==> r.value.props == p - {"afterCurrent"}
  {
    var p := Or(props, map[]);
    if Truthy(Prop(p, "afterCurrent")) then
      if |activeIndexes| == 0 then Err(TypeError)
      else Ok(CreateTab(p["index" := Num(activeIndexes[0] + 1)] - {"afterCurrent"}))
    else Ok(CreateTab(p - {"afterCurrent"}))
  }

  /** Every other property is passed on unchanged, and opening again with
      what was passed on asks for the same tab. */
  lemma OpenTabKeepsProps(props: map<string, JsValue>, activeIndexes: seq<int>, k: string)
    requires OpenTab(Some(props), activeIndexes).Ok?
    requires k in props && k != "afterCurrent" && k != "index"
    ensures var created := OpenTab(Some(props), activeIndexes).value.props;
            k in created && created[k] == props[k]
    ensures var created := OpenTab(Some(props), activeIndexes).value.props;
            OpenTab(Some(created), activeIndexes) == OpenTab(Some(props), activeIndexes)
  {
    var created := OpenTab(Some(props), activeIndexes).value.props;
    assert created - {"afterCurrent"} == created;
  }

  /** A drop of a link asks the owner to open it; that request reaches the
      browser unchanged. */
  lemma OpenTabPlain(url: string, windowId: JsValue, activeIndexes: seq<int>)
    ensures var props := map["url" := Str(url), "windowId" := windowId];
            OpenTab(Some(props), activeIndexes) == Ok(CreateTab(props))
  {
    var props := map["url" := Str(url), "windowId" := windowId];
    assert props - {"afterCurrent"} == props;
  }

  /** `_search(val)`: the list filters by the value; the top menu's echo
      of the search box is left out. */
  function Search(l: SidebarTabList.TabList, val: string): (r: SidebarTabList.TabList)
    ensures r.display.filterActive <==> |val| > 0
    ensures r.tabs.Keys == l.tabs.Keys && r.doc == l.doc
  {
    SidebarTabList.Filter(l, val)
  }

  /** The list's `_clearSearch` goes through this callback with the empty
      value, and an empty search shows every tab again. */
  lemma ClearSearchIsEmptySearch(l: SidebarTabList.TabList)
    requires l.display.filterActive
    ensures SidebarTabList.ClearSearch(l) == Search(l, "")
    ensures forall k :: k in Search(l, "").tabs ==> Search(l, "").tabs[k].visible
  {
    SidebarTabList.FilterEmptyShowsAll(l);
  }
}
