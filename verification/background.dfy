/** The background page (`src/background.js`): the set of windows whose
    sidebar announced itself, kept from the sidebars' messages, and the
    toolbar button that toggles the sidebar from that set. */
module Background {

  /** The message a sidebar sends: "sidebar-open" from `init`,
      "sidebar-closed" when its page unloads. */
  datatype Message = Message(event: string, windowId: int)

  const SidebarOpen := "sidebar-open"
  const SidebarClosed := "sidebar-closed"

  /** The `sidebarAction` call a button click makes. */
  datatype Action = OpenSidebar | CloseSidebar

  /** `onMessage(msg)`: an open message registers its window, any other
      message unregisters it; no other window is touched. */
  function OnMessage(windows: set<int>, msg: Message): (r: set<int>)
    ensures msg.windowId in r <==> msg.event == SidebarOpen
    ensures forall w :: w != msg.windowId ==> (w in r <==> w in windows)
  {
    if msg.event == SidebarOpen then windows + {msg.windowId} else windows - {msg.windowId}
  }

  /** Of two messages about the same window, the later one decides; in
      particular a message repeated changes nothing more. */
  lemma LastMessageWins(windows: set<int>, a: Message, b: Message)
    requires a.windowId == b.windowId
    ensures OnMessage(OnMessage(windows, a), b) == OnMessage(windows, b)
  {
  }

  /** The set after a click, and the call the click makes. */
  datatype Clicked = Clicked(windows: set<int>, action: Action)

  /** `onClick(tab)`: a registered window is unregistered at once and its
      sidebar closed; for any other window the sidebar is opened and the
      set waits for the sidebar's own message. */
  function OnClick(windows: set<int>, windowId: int): (r: Clicked)
    ensures windowId in windows ==> r.action == CloseSidebar && r.windows == windows - {windowId}
    ensures windowId !in windows ==> r.action == OpenSidebar && r.windows == windows
    ensures windowId !in r.windows
  {
    if windowId in windows then Clicked(windows - {windowId}, CloseSidebar)
    else Clicked(windows, OpenSidebar)
  }

  // ---------------------------------------------------------------------
  // The set against the browser's sidebars

  /** What happens in the browser: a sidebar page loads (and sends its
      open message), unloads with its close message, closes without one
      (the `beforeunload` the source does not rely on), or the user clicks
      the toolbar button in a window. */
  datatype HostEvent = Loaded(w: int) | Unloaded(w: int) | ClosedSilently(w: int) | ButtonClicked(w: int)

  /** The background set and the windows whose sidebar is actually open. */
  datatype World = World(windows: set<int>, showing: set<int>)

  /** A window's sidebar opened from the button loads and announces
      itself; one closed from the button unloads, whose message then finds
      the window already gone from the set. */
  function Apply(s: World, e: HostEvent): (r: World)
    ensures e.ButtonClicked? && e.w in s.windows ==> e.w !in r.showing
    ensures e.ButtonClicked? && e.w !in s.windows ==> e.w in r.showing && e.w in r.windows
  {
    match e
    case Loaded(w) => World(OnMessage(s.windows, Message(SidebarOpen, w)), s.showing + {w})
    case Unloaded(w) => World(OnMessage(s.windows, Message(SidebarClosed, w)), s.showing - {w})
    case ClosedSilently(w) => s.(showing := s.showing - {w})
    case ButtonClicked(w) =>
      var c := OnClick(s.windows, w);
      if c.action == CloseSidebar
      then World(OnMessage(c.windows, Message(SidebarClosed, w)), s.showing - {w})
      else World(OnMessage(c.windows, Message(SidebarOpen, w)), s.showing + {w})
  }

  /** Whether an event keeps the browser announcing what it does. */
  predicate Announced(e: HostEvent)
  {
    !e.ClosedSilently?
  }

  /** While every sidebar announces its loads and unloads, the set is
      exactly the windows whose sidebar is open, and a click toggles the
      sidebar of its window. */
  lemma ApplyMirrors(s: World, e: HostEvent)
    requires s.windows == s.showing && Announced(e)
    ensures Apply(s, e).windows == Apply(s, e).showing
    ensures e.ButtonClicked? ==> (e.w in Apply(s, e).showing <==> e.w !in s.showing)
  {
  }

  /** A run of events, in order. */
  function ApplyAll(s: World, es: seq<HostEvent>): World
    decreases |es|
  {
    if |es| == 0 then s else ApplyAll(Apply(s, es[0]), es[1..])
  }

  lemma {:induction false} ApplyAllMirrors(s: World, es: seq<HostEvent>)
    requires s.windows == s.showing
    requires forall i :: 0 <= i < |es| ==> Announced(es[i])
    ensures ApplyAll(s, es).windows == ApplyAll(s, es).showing
    decreases |es|
  {
    if |es| > 0 {
      ApplyMirrors(s, es[0]);
      ApplyAllMirrors(Apply(s, es[0]), es[1..]);
    }
  }

  /** A sidebar that closes without its message leaves its window in the
      set: the next click asks to close a sidebar that is already closed,
      and only the click after that opens it. */
  lemma SilentCloseCostsAClick(s: World, w: int)
    requires s.windows == s.showing && w in s.showing
    ensures var s1 := Apply(s, ClosedSilently(w));
            w in s1.windows && w !in s1.showing
            && OnClick(s1.windows, w).action == CloseSidebar
            && w !in Apply(s1, ButtonClicked(w)).showing
            && w in Apply(Apply(s1, ButtonClicked(w)), ButtonClicked(w)).showing
  {
  }
}
