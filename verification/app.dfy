/** The application shell (App.tsx): the splash progress counter, the tab
    dispatch and the bottom navigation bar. The interval timer and
    `Math.random` become explicit tick events carrying the random increment. */
module App {
  import opened Types
  import Seqs

  // ---------------------------------------------------------------------------
  // Splash screen progress
  // ---------------------------------------------------------------------------

  /** `Math.random() * 20`: a value in [0, 20). */
  type Increment = r: real | 0.0 <= r < 20.0

  /** The state updater passed to `setProgress` on every interval tick. */
  function NextProgress(prev: real, r: Increment): (p: real)
    ensures p <= 100.0
    ensures prev <= 100.0 ==> prev <= p
    ensures p < prev + 20.0 || (prev > 100.0 && p == 100.0)
    ensures prev == 100.0 ==> p == 100.0
    ensures prev < 100.0 ==> p == (if prev + r < 100.0 then prev + r else 100.0)
  {
    if prev == 100.0 then 100.0
    else if prev + r < 100.0 then prev + r
    else 100.0
  }

  /** The splash state: the progress value, whether the interval still runs,
      and whether the splash is still shown. */
  datatype Splash = Splash(progress: real, ticking: bool, loading: bool)

  const InitialSplash: Splash := Splash(0.0, true, true)

  /** An interval tick with its random increment, or the 500 ms timeout
      scheduled when the interval stops. */
  datatype SplashEvent = Tick(r: Increment) | HideTimerFires

  /** One event. A tick that finds progress at 100 stops the interval (and
      schedules the hide timeout); the hide timeout ends the splash. */
  function SplashStep(s: Splash, e: SplashEvent): (t: Splash)
    ensures s.progress <= 100.0 ==> s.progress <= t.progress
    ensures t.progress <= 100.0 || t.progress == s.progress
    ensures !t.ticking ==> !s.ticking || s.progress == 100.0
    ensures !t.loading ==> !s.loading || (e.HideTimerFires? && !s.ticking)
    ensures e.Tick? && s.ticking && s.progress != 100.0 ==> t == s.(progress := NextProgress(s.progress, e.r))
    ensures e.Tick? && s.ticking && s.progress == 100.0 ==> t == s.(ticking := false)
    ensures e.HideTimerFires? && !s.ticking ==> t == s.(loading := false)
    ensures (e.Tick? && !s.ticking) || (e.HideTimerFires? && s.ticking) ==> t == s
  {
    match e
    case Tick(r) =>
      if !s.ticking then s
      else if s.progress == 100.0 then s.(ticking := false)
      else s.(progress := NextProgress(s.progress, r))
    case HideTimerFires =>
      if s.ticking then s else s.(loading := false)
  }

  function RunSplash(s: Splash, events: seq<SplashEvent>): Splash
    decreases |events|
  {
    if |events| == 0 then s else RunSplash(SplashStep(s, events[0]), events[1..])
  }

  /** What every reachable splash state satisfies: progress stays in
      [0, 100], the interval stops only at 100, and the splash ends only after
      the interval stopped. */
  predicate SplashInvariant(s: Splash)
  {
    && 0.0 <= s.progress <= 100.0
    && (!s.ticking ==> s.progress == 100.0)
    && (!s.loading ==> !s.ticking)
  }

  /** Along any run from a valid state the invariant holds and the progress
      never decreases. */
  lemma {:induction false} RunSplashMonotone(s: Splash, events: seq<SplashEvent>)
    requires SplashInvariant(s)
    ensures SplashInvariant(RunSplash(s, events))
    ensures s.progress <= RunSplash(s, events).progress
    decreases |events|
  {
    if |events| > 0 {
      RunSplashMonotone(SplashStep(s, events[0]), events[1..]);
    }
  }

  lemma SplashReachable(events: seq<SplashEvent>)
    ensures SplashInvariant(RunSplash(InitialSplash, events))
  {
    RunSplashMonotone(InitialSplash, events);
  }

  /** Once progress is 100 a tick keeps it at 100 and stops the interval. */
  lemma TickAtFull(s: Splash, r: Increment)
    requires s.ticking && s.progress == 100.0
    ensures SplashStep(s, Tick(r)) == Splash(100.0, false, s.loading)
  {
  }

  // ---------------------------------------------------------------------------
  // Tab dispatch and navigation
  // ---------------------------------------------------------------------------

  /** The screens `renderContent` can show. */
  datatype View = HomeView | ReserveView | GalleryView | MenuView | ProfileView

  /** The screen each tab stands for. */
  function ViewOf(t: Tab): View
  {
    match t
    case Home => HomeView
    case Reserve => ReserveView
    case Gallery => GalleryView
    case Menu => MenuView
    case Profile => ProfileView
  }

  /** `renderContent`, a switch over the tab's string with a default branch. */
  function RenderContent(key: string): (v: View)
    ensures (exists t :: TabKey(t) == key && v == ViewOf(t)) || (v == HomeView && forall t :: TabKey(t) != key)
  {
    if key == "home" then (assert TabKey(Home) == key; HomeView)
    else if key == "reserve" then (assert TabKey(Reserve) == key; ReserveView)
    else if key == "gallery" then (assert TabKey(Gallery) == key; GalleryView)
    else if key == "menu" then (assert TabKey(Menu) == key; MenuView)
    else if key == "profile" then (assert TabKey(Profile) == key; ProfileView)
    else HomeView
  }

  /** The dispatch is total: every tab shows its own screen. */
  lemma RenderContentTotal(t: Tab)
    ensures RenderContent(TabKey(t)) == ViewOf(t)
  {
  }

  /** Distinct tabs are spelled differently, so the dispatch tells them apart. */
  lemma TabKeyInjective(t: Tab, u: Tab)
    ensures TabKey(t) == TabKey(u) ==> t == u
  {
  }

  /** The navigation buttons, left to right. */
  const NavOrder: seq<Tab> := [Home, Reserve, Gallery, Menu, Profile]

  /** The shell opens on the home tab. */
  const InitialTab: Tab := Home

  /** The initial `activeTab` is home. The navigation bar is not rendered
      during the splash, so the tab cannot change before the splash ends.
      When it ends, only the first button, home, is marked active, and the
      dispatch shows the home screen. */
  lemma InitialNavMarksHome()
    ensures NavBar(InitialTab)[0]
    ensures Seqs.Count(NavBar(InitialTab), true) == 1
    ensures RenderContent(TabKey(InitialTab)) == HomeView
  {
    CountSingle(NavBar(InitialTab), 0);
  }

  /** Pressing navigation button `i` sets the active tab to its tab. */
  function PressNav(i: int): (t: Tab)
    requires 0 <= i < |NavOrder|
    ensures forall j :: 0 <= j < |NavOrder| ==> (NavOrder[j] == t <==> j == i)
  {
    NavOrder[i]
  }

  /** The `active` flag of each navigation button. */
  function NavBar(active: Tab): (flags: seq<bool>)
    ensures |flags| == |NavOrder|
    ensures forall j :: 0 <= j < |flags| ==> (flags[j] <==> NavOrder[j] == active)
  {
    seq(|NavOrder|, j requires 0 <= j < |NavOrder| => NavOrder[j] == active)
  }

  /** After pressing button `i`, exactly one button is marked active, and it
      is button `i`. */
  lemma PressNavMarksOne(i: int)
    requires 0 <= i < |NavOrder|
    ensures NavBar(PressNav(i))[i]
    ensures Seqs.Count(NavBar(PressNav(i)), true) == 1
  {
    CountSingle(NavBar(PressNav(i)), i);
  }

  /** A flag list with exactly one set flag counts one. */
  lemma {:induction false} CountSingle(flags: seq<bool>, i: int)
    requires 0 <= i < |flags|
    requires forall j :: 0 <= j < |flags| ==> (flags[j] <==> j == i)
    ensures Seqs.Count(flags, true) == 1
  {
    if i == 0 {
      CountNone(flags[1..]);
    } else {
      CountSingle(flags[1..], i - 1);
    }
  }

  lemma {:induction false} CountNone(flags: seq<bool>)
    requires forall j :: 0 <= j < |flags| ==> !flags[j]
    ensures Seqs.Count(flags, true) == 0
  {
    if |flags| > 0 {
      CountNone(flags[1..]);
    }
  }
}
