/**
 * Which bottom tabs the app shows (src/navigation/TabButton.tsx), given the
 * role App.tsx reads from the saved session.
 */
module Navigation {
  import opened Objects
  import opened Accounts

  datatype Tab = HomeTab | AdminTab | CartTab | ProfileTab | LoginTab | SignupTab

  /** checkUserRole: the saved user's role, or the empty string when nobody is logged in. */
  function RoleOf(session: Option<User>): (r: string)
    ensures session.None? ==> r == ""
    ensures session.Some? ==> r == session.value.role
  {
    if session.Some? then session.value.role else ""
  }

  /** The render condition of each tab screen. */
  predicate Visible(tab: Tab, userRole: string) {
    match tab
    case HomeTab => true
    case AdminTab => userRole == AdminRole
    case CartTab => userRole != "" && userRole == UserRole
    case ProfileTab => userRole != ""
    case LoginTab => userRole == ""
    case SignupTab => userRole == ""
  }

  /** The tabs shown for a role, in declaration order. */
  function VisibleTabs(userRole: string): (r: seq<Tab>)
    ensures forall t :: t in r <==> Visible(t, userRole)
  {
    [HomeTab]
    + (if Visible(AdminTab, userRole) then [AdminTab] else [])
    + (if Visible(CartTab, userRole) then [CartTab] else [])
    + (if Visible(ProfileTab, userRole) then [ProfileTab] else [])
    + (if Visible(LoginTab, userRole) then [LoginTab, SignupTab] else [])
  }

  /** Exactly one of Login and Profile is shown: guests log in, users see their profile. */
  lemma LoginExcludesProfile(session: Option<User>)
    ensures Visible(LoginTab, RoleOf(session)) <==> !Visible(ProfileTab, RoleOf(session))
    ensures Visible(LoginTab, RoleOf(session)) <==> Visible(SignupTab, RoleOf(session))
  {
  }

  /** No role sees both the admin tab and the cart. */
  lemma AdminHasNoCart(userRole: string)
    ensures !(Visible(AdminTab, userRole) && Visible(CartTab, userRole))
  {
  }

  /**
   * After a log-in the route agrees with the tabs: the dashboard route exactly
   * when the new session shows the admin tab.
   */
  lemma RouteIsVisible(user: User)
    ensures RouteFor(user.role) == AdminDashboard ==> Visible(AdminTab, RoleOf(Some(user)))
    ensures RouteFor(user.role) == HomeScreen ==> !Visible(AdminTab, RoleOf(Some(user)))
  {
  }

  /** A registered account (role 'user') sees the cart and the profile, not the admin tab. */
  lemma RegisteredUserTabs(user: User)
    requires user.role == UserRole
    ensures VisibleTabs(RoleOf(Some(user))) == [HomeTab, CartTab, ProfileTab]
  {
  }
}
