/** The full-screen settings screen: a list of setting categories and the
    detail of the chosen one, shown side by side when the window is wide
    enough and one at a time when it is compact. */
module FullscreenSettings {

  datatype WindowWidthSizeClass = Compact | Medium | Expanded

  datatype SettingsCategory = Algorithm | FeatureFlags | Visual

  /** The navigation entry's state: the chosen category, and whether a
      compact window should show its detail rather than the list. */
  datatype Fullscreen = Fullscreen(settingsCategory: SettingsCategory, showDetails: bool)

  datatype Screen = Screen(width: WindowWidthSizeClass, fullscreen: Fullscreen)

  /** The list pane shows on wide windows always, on compact ones unless
      a detail is asked for. */
  function ShowList(s: Screen): (b: bool)
    ensures s.width != Compact ==> b
    ensures s.width == Compact ==> (b <==> !s.fullscreen.showDetails)
  {
    match s.width
    case Compact => !s.fullscreen.showDetails
    case _ => true
  }

  /** The detail pane shows on wide windows always; on compact ones it
      takes the list's place, so some pane always shows. */
  function ShowDetail(s: Screen): (b: bool)
    ensures s.width != Compact ==> b
    ensures s.width == Compact ==> b != ShowList(s)
    ensures b || ShowList(s)
  {
    match s.width
    case Compact => s.fullscreen.showDetails
    case _ => true
  }

  /** Both panes show exactly on wide windows, whatever the stored flag says. */
  function ShowListAndDetail(s: Screen): (b: bool)
    ensures b <==> s.width != Compact
  {
    ShowList(s) && ShowDetail(s)
  }

  /** What is on screen. */
  datatype Layout = ListAndDetail(detail: SettingsCategory) | ListOnly | DetailOnly(detail: SettingsCategory)

  function LayoutOf(s: Screen): (l: Layout)
    ensures l.ListAndDetail? <==> s.width != Compact
    ensures l == ListOnly <==> s.width == Compact && !s.fullscreen.showDetails
    ensures !l.ListOnly? ==> l.detail == s.fullscreen.settingsCategory
  {
    if ShowListAndDetail(s) then ListAndDetail(s.fullscreen.settingsCategory)
    else if ShowList(s) then ListOnly
    else DetailOnly(s.fullscreen.settingsCategory)
  }

  /** The predictive-back gesture is armed only while the detail is shown alone. */
  function PredictiveBackEnabled(s: Screen): (b: bool)
    ensures b <==> LayoutOf(s).DetailOnly?
  {
    ShowDetail(s) && !ShowList(s)
  }

  /** The detail pane draws its own app bar (with a back button) only when
      it is alone; the list's app bar floats only when both panes show. */
  function DetailShowsAppBar(s: Screen): (b: bool)
    ensures b <==> !LayoutOf(s).ListAndDetail?
  {
    !ShowListAndDetail(s)
  }

  function ListShowsFloatingAppBar(s: Screen): (b: bool)
    ensures b <==> LayoutOf(s).ListAndDetail?
  {
    ShowListAndDetail(s)
  }

  /** A category button is highlighted when both panes show and it is the
      current category. */
  function IsVisuallySelected(s: Screen, c: SettingsCategory): (b: bool)
    ensures b <==> LayoutOf(s) == ListAndDetail(c)
    ensures s.width == Compact ==> !b
  {
    var showSelectedSettingsCategory := ShowListAndDetail(s);
    var isCurrentSettingsCategory := c == s.fullscreen.settingsCategory;
    showSelectedSettingsCategory && isCurrentSettingsCategory
  }

  // ----- transitions ------------------------------------------------------------

  datatype Event =
    | SelectCategory(category: SettingsCategory)
    | DetailBack
    | PredictiveBack
    | Resize(width: WindowWidthSizeClass)

  /** Choosing a category (possible while the list shows) shows it; either
      back action (available only while the detail is alone) returns to the
      list; a resize keeps the entry's state. */
  function Step(s: Screen, e: Event): (r: Screen)
    ensures e.Resize? ==> r == Screen(e.width, s.fullscreen)
    ensures e.SelectCategory? && ShowList(s) ==> r.fullscreen == Fullscreen(e.category, true) && r.width == s.width
    ensures e.DetailBack? && DetailShowsAppBar(s) ==> r.fullscreen == s.fullscreen.(showDetails := false)
    ensures e.PredictiveBack? && PredictiveBackEnabled(s) ==> r.fullscreen == s.fullscreen.(showDetails := false)
    ensures (e.SelectCategory? && !ShowList(s)) || (e.DetailBack? && !DetailShowsAppBar(s)) || (e.PredictiveBack? && !PredictiveBackEnabled(s)) ==> r == s
  {
    match e
    case SelectCategory(c) => if ShowList(s) then s.(fullscreen := Fullscreen(c, true)) else s
    case DetailBack => if DetailShowsAppBar(s) then s.(fullscreen := s.fullscreen.(showDetails := false)) else s
    case PredictiveBack => if PredictiveBackEnabled(s) then s.(fullscreen := s.fullscreen.(showDetails := false)) else s
    case Resize(w) => s.(width := w)
  }

  /** On a compact window, choosing a category shows that category's detail
      alone, and going back from it shows the list. */
  lemma CompactNavigation(s: Screen, c: SettingsCategory)
    requires s.width == Compact && !s.fullscreen.showDetails
    ensures LayoutOf(Step(s, SelectCategory(c))) == DetailOnly(c)
    ensures LayoutOf(Step(Step(s, SelectCategory(c)), DetailBack)) == ListOnly
    ensures LayoutOf(Step(Step(s, SelectCategory(c)), PredictiveBack)) == ListOnly
  {
  }

  /** Growing the window and shrinking it back returns to the same pane. */
  lemma ResizeRoundTrip(s: Screen, w: WindowWidthSizeClass)
    ensures Step(Step(s, Resize(w)), Resize(s.width)) == s
    ensures LayoutOf(Step(Step(s, Resize(w)), Resize(s.width))) == LayoutOf(s)
  {
  }

  function Run(s: Screen, events: seq<Event>): Screen
    decreases |events|
  {
    if |events| == 0 then s else Run(Step(s, events[0]), events[1..])
  }

  /** The detail pane only ever shows the starting category or one the user
      chose. */
  lemma {:induction false} DetailIsChosen(s: Screen, events: seq<Event>)
    ensures var c := Run(s, events).fullscreen.settingsCategory;
            c == s.fullscreen.settingsCategory || SelectCategory(c) in events
    decreases |events|
  {
    if |events| > 0 {
      var next := Step(s, events[0]);
      DetailIsChosen(next, events[1..]);
      var c := Run(s, events).fullscreen.settingsCategory;
      if SelectCategory(c) in events[1..] {
        var i :| 0 <= i < |events[1..]| && events[1..][i] == SelectCategory(c);
        assert events[i + 1] == SelectCategory(c);
      }
    }
  }
}
