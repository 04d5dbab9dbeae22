/** The admin panel (`client/src/Admin/Main.tsx`): four tabs, one visible
    panel, and each panel's content gated on the admin token. */
module AdminTabs {
  import opened Basics

  /** The tabs in display order. */
  datatype Tab = RegisterTab | LoginTab | DashboardTab | NoticeTab

  /** A tab's position, the `index` its panel is given. */
  function Index(t: Tab): nat {
    match t
    case RegisterTab => 0
    case LoginTab => 1
    case DashboardTab => 2
    case NoticeTab => 3
  }

  /** What a panel can hold. */
  datatype Content = RegisterForm | LoginForm | Dashboard | NoticeAdmin | Refusal(text: string)

  /** An admin is logged in when local storage has a `token` entry, whatever
      its value. */
  predicate IsLoggedIn(storage: Storage) {
    "token" in storage
  }

  /** The content a tab's panel holds. Register and login are for visitors
      only; the dashboard and the notice board are for logged-in admins. */
  function TabContent(t: Tab, loggedIn: bool): (c: Content)
    ensures (t == RegisterTab || t == LoginTab) ==> (c.Refusal? <==> loggedIn)
    ensures (t == DashboardTab || t == NoticeTab) ==> (c.Refusal? <==> !loggedIn)
    ensures !c.Refusal? ==> c == [RegisterForm, LoginForm, Dashboard, NoticeAdmin][Index(t)]
  {
    match t
    case RegisterTab => if loggedIn then Refusal("You can't access the registration form.") else RegisterForm
    case LoginTab => if loggedIn then Refusal("You can't access the login form.") else LoginForm
    case DashboardTab => if loggedIn then Dashboard else Refusal("You can't access the dashboard panel without login.")
    case NoticeTab => if loggedIn then NoticeAdmin else Refusal("You can't access the notice panel without login.")
  }

  /** `TabPanel`: the children are rendered only when the selected value is
      this panel's index. */
  function TabPanel(value: int, index: nat, children: Content): (r: Option<Content>)
    ensures r.Some? <==> value == index
    ensures r.Some? ==> r.value == children
  {
    if value == index then Some(children) else None
  }

  /** Everything the panel renders for a selected value: the four panels'
      contents in tab order, absent panels left out. */
  function Rendered(value: int, storage: Storage): seq<Content> {
    var loggedIn := IsLoggedIn(storage);
    Shown(TabPanel(value, 0, TabContent(RegisterTab, loggedIn)))
    + Shown(TabPanel(value, 1, TabContent(LoginTab, loggedIn)))
    + Shown(TabPanel(value, 2, TabContent(DashboardTab, loggedIn)))
    + Shown(TabPanel(value, 3, TabContent(NoticeTab, loggedIn)))
  }

  /** A rendered panel contributes its content; a hidden one nothing. */
  function Shown(panel: Option<Content>): seq<Content> {
    if panel.Some? then [panel.value] else []
  }

  /** Exactly one panel renders for a selected tab, and it holds that tab's
      gated content; any other value renders nothing. */
  lemma RenderedIsSelectedTab(value: int, storage: Storage)
    ensures (value < 0 || value >= 4) ==> Rendered(value, storage) == []
    ensures forall t :: value == Index(t) ==> Rendered(value, storage) == [TabContent(t, IsLoggedIn(storage))]
  {
  }

  /** `handleChange`: the selected value becomes the new index. */
  function ChangeTab(value: int, newValue: int): int {
    newValue
  }

  /** Selecting a tab shows that tab's gated content and nothing else. */
  lemma ChangeTabShows(value: int, t: Tab, storage: Storage)
    ensures Rendered(ChangeTab(value, Index(t)), storage) == [TabContent(t, IsLoggedIn(storage))]
  {
    RenderedIsSelectedTab(Index(t), storage);
  }
}
