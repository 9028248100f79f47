/**
 * The application shell: the login gate, the sidebar, the logout
 * confirmation, the notification and settings pop-overs, and the choice of
 * panel for the active section.
 */
module AppShell {

  import Sidebar

  /** The panels the main area can show. */
  datatype Panel = Overview | UploadData | Forecast | Dashboard | ProAsk | History

  /** The section id each panel is reached by. */
  function SectionId(p: Panel): string {
    match p
    case Overview => "overview"
    case UploadData => "upload"
    case Forecast => "forecast"
    case Dashboard => "dashboard"
    case ProAsk => "proask"
    case History => "history"
  }

  /** `renderContent`: the panel for a section id; unknown ids show the overview. */
  function RenderContent(section: string): (p: Panel)
    ensures SectionId(p) == section || p == Overview
    ensures forall q :: SectionId(q) == section ==> p == q
    ensures (forall q :: SectionId(q) != section) ==> p == Overview
  {
    match section
    case "overview" => Overview
    case "upload" => UploadData
    case "forecast" => Forecast
    case "dashboard" => Dashboard
    case "proask" => ProAsk
    case "history" => History
    case _ => Overview
  }

  /** Each panel's own id renders that panel. */
  lemma RenderSectionId(p: Panel)
    ensures RenderContent(SectionId(p)) == p
  {
  }

  /** Each sidebar entry leads to the panel whose id it carries. */
  lemma NavItemsRenderTheirPanel()
    ensures forall i :: 0 <= i < |Sidebar.NavItems| ==>
              SectionId(RenderContent(Sidebar.NavItems[i].id)) == Sidebar.NavItems[i].id
  {
  }

  datatype Theme = Light | Dark

  datatype FontSize = Small | Medium | Large

  datatype State = State(
    isAuthenticated: bool,
    activeSection: string,
    showLogoutDialog: bool,
    showNotifications: bool,
    showSettings: bool,
    theme: Theme,
    fontSize: FontSize,
    sidebar: Sidebar.State)

  const Init := State(false, "overview", false, false, false, Light, Medium, Sidebar.Init)

  /** What the window shows: the login screen, or the main layout with one panel. */
  datatype Screen = Login | Main(panel: Panel)

  function CurrentScreen(s: State): (sc: Screen)
    ensures !s.isAuthenticated ==> sc == Login
    ensures s.isAuthenticated ==> sc == Main(RenderContent(s.activeSection))
  {
    if s.isAuthenticated then Main(RenderContent(s.activeSection)) else Login
  }

  datatype Event =
    | SignIn
    | Navigate(section: string)
    | Logout
    | ConfirmLogout
    | CancelLogout
    | ToggleNotifications
    | ToggleSettings
    | SetTheme(theme: Theme)
    | SetFontSize(size: FontSize)
    | SidebarEvent(e: Sidebar.Event)

  /**
   * Only the login screen is interactive while signed out; while the logout
   * confirmation is open only its two buttons are; the theme and font
   * buttons live inside the settings pop-over.
   */
  predicate Enabled(s: State, e: Event) {
    match e
    case SignIn => !s.isAuthenticated
    case ConfirmLogout => s.isAuthenticated && s.showLogoutDialog
    case CancelLogout => s.isAuthenticated && s.showLogoutDialog
    case SetTheme(_) => s.isAuthenticated && !s.showLogoutDialog && s.showSettings
    case SetFontSize(_) => s.isAuthenticated && !s.showLogoutDialog && s.showSettings
    case SidebarEvent(se) => s.isAuthenticated && !s.showLogoutDialog && Sidebar.Enabled(s.sidebar, se)
    case _ => s.isAuthenticated && !s.showLogoutDialog
  }

  ghost predicate Inv(s: State) {
    (s.showLogoutDialog ==> s.isAuthenticated) && Sidebar.Inv(s.sidebar)
  }

  /**
   * One user action. Signing out unmounts the sidebar, so its collapse flag
   * and favourites start afresh at the next sign-in; the shell's own state,
   * the active section included, survives.
   */
  function Next(s: State, e: Event): (r: State)
    ensures Inv(s) ==> Inv(r)
    ensures !Enabled(s, e) ==> r == s
  {
    if !Enabled(s, e) then s
    else
      match e
      case SignIn => s.(isAuthenticated := true)
      case Navigate(section) => s.(activeSection := section)
      case Logout => s.(showLogoutDialog := true)
      case ConfirmLogout =>
        Sidebar.InitInv();
        s.(showLogoutDialog := false, isAuthenticated := false, sidebar := Sidebar.Init)
      case CancelLogout => s.(showLogoutDialog := false)
      case ToggleNotifications => s.(showNotifications := !s.showNotifications)
      case ToggleSettings => s.(showSettings := !s.showSettings)
      case SetTheme(theme) => s.(theme := theme)
      case SetFontSize(size) => s.(fontSize := size)
      case SidebarEvent(se) => s.(sidebar := Sidebar.Next(s.sidebar, se))
  }

  function Run(s: State, events: seq<Event>): State
    decreases |events|
  {
    if events == [] then s else Run(Next(s, events[0]), events[1..])
  }

  lemma InitInv()
    ensures Inv(Init)
  {
    Sidebar.InitInv();
  }

  /** Every state reachable from a state satisfying the invariant satisfies it. */
  lemma {:induction false} RunKeepsInv(s: State, events: seq<Event>)
    requires Inv(s)
    ensures Inv(Run(s, events))
    decreases |events|
  {
    if events != [] {
      RunKeepsInv(Next(s, events[0]), events[1..]);
    }
  }

  /** While signed out, nothing but signing in changes what is shown. */
  lemma {:induction false} SignedOutShowsLogin(s: State, events: seq<Event>)
    requires !s.isAuthenticated
    requires forall i :: 0 <= i < |events| ==> events[i] != SignIn
    ensures Run(s, events) == s
    ensures CurrentScreen(Run(s, events)) == Login
    decreases |events|
  {
    if events != [] {
      assert Next(s, events[0]) == s;
      SignedOutShowsLogin(s, events[1..]);
    }
  }

  /** Signing in shows the panel for the remembered section. */
  lemma SignInShowsSection(s: State)
    requires !s.isAuthenticated
    ensures CurrentScreen(Next(s, SignIn)) == Main(RenderContent(s.activeSection))
  {
  }

  /** Choosing a section stores it verbatim and shows its panel. */
  lemma NavigateShowsPanel(s: State, section: string)
    requires s.isAuthenticated && !s.showLogoutDialog
    ensures Next(s, Navigate(section)).activeSection == section
    ensures CurrentScreen(Next(s, Navigate(section))) == Main(RenderContent(section))
  {
  }

  /**
   * `handleLogout` only opens the confirmation and leaves the session signed
   * in; cancelling it gives back exactly the state before.
   */
  lemma LogoutThenCancel(s: State)
    requires s.isAuthenticated && !s.showLogoutDialog
    ensures Next(s, Logout) == s.(showLogoutDialog := true)
    ensures CurrentScreen(Next(s, Logout)) == CurrentScreen(s)
    ensures Next(Next(s, Logout), CancelLogout) == s
  {
  }

  /**
   * `confirmLogout` closes the confirmation and signs out; signing in again
   * returns to the same section with a fresh sidebar.
   */
  lemma LogoutConfirmSignIn(s: State)
    requires s.isAuthenticated && !s.showLogoutDialog
    ensures var t := Next(Next(s, Logout), ConfirmLogout);
      !t.isAuthenticated && !t.showLogoutDialog && CurrentScreen(t) == Login
    ensures var t := Next(Next(Next(s, Logout), ConfirmLogout), SignIn);
      CurrentScreen(t) == CurrentScreen(s) && t.sidebar == Sidebar.Init
  {
  }

  /** The notification and settings buttons each flip their pop-over and nothing else. */
  lemma PopoverTogglesAreInvolutions(s: State)
    requires s.isAuthenticated && !s.showLogoutDialog
    ensures Next(s, ToggleNotifications) == s.(showNotifications := !s.showNotifications)
    ensures Next(Next(s, ToggleNotifications), ToggleNotifications) == s
    ensures Next(s, ToggleSettings) == s.(showSettings := !s.showSettings)
    ensures Next(Next(s, ToggleSettings), ToggleSettings) == s
  {
  }
}
