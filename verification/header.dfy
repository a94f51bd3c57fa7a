/**
  The site header: which navigation entries it offers, when it is hidden,
  what a click on an entry does, the name shown for the signed-in user, and
  when the admin-panel entry appears. Authentication and the admin lookup are
  outside services; their answers arrive as parameters.
 */
module Header {
  import opened Seqs
  import opened Text

  /**
    The signed-in user. An empty string stands for an absent or empty field:
    the header only ever tests these fields for truthiness.
   */
  datatype User = User(name: string, email: string)

  datatype NavItem = NavItem(caption: string, path: string, protected: bool)

  const Home: NavItem := NavItem("Home", "home", false)
  const LibraryItem: NavItem := NavItem("Library", "library", true)
  const SheetsItem: NavItem := NavItem("Cheat Sheets", "cheatsheets", true)
  const DsaItem: NavItem := NavItem("DSA", "dsa", true)

  /** The page on which the header is not drawn. */
  const ResourcesPage: string := "dsa/resources"

  // ---------------------------------------------------------------------------
  // Navigation
  // ---------------------------------------------------------------------------

  /** `navItems`: Home alone for a visitor, the four sections for a signed-in user. */
  function NavItems(user: Option<User>): (r: seq<NavItem>)
    ensures |r| >= 1 && r[0] == Home
    ensures user.None? <==> |r| == 1
    ensures forall i :: 0 <= i < |r| ==> (r[i].protected <==> i > 0)
  {
    if user.Some? then [Home, LibraryItem, SheetsItem, DsaItem] else [Home]
  }

  /** The two sections whose navigation asks a visitor to sign in first. */
  predicate Gated(path: string)
  {
    path == "cheatsheets" || path == "dsa"
  }

  datatype Effect = SignIn | NavigateTo(path: string)

  datatype Navigation = Navigation(effect: Effect, menuOpen: bool)

  /** `handleNavigation(path)`: a visitor heading for a gated section is sent to sign in, and the mobile menu stays as it was. */
  function Navigate(user: Option<User>, path: string, menuOpen: bool): (r: Navigation)
    ensures r.effect == SignIn <==> Gated(path) && user.None?
    ensures r.effect.NavigateTo? ==> r.effect.path == path && !r.menuOpen
    ensures r.effect == SignIn ==> r.menuOpen == menuOpen
  {
    if Gated(path) && user.None? then Navigation(SignIn, menuOpen)
    else Navigation(NavigateTo(path), false)
  }

  /**
    A click on a drawn entry, in the desktop bar or (`mobile`) the mobile menu:
    a protected entry shown to a visitor signs in, and only the mobile button
    also closes the menu; any other entry navigates.
   */
  function ItemClick(user: Option<User>, item: NavItem, menuOpen: bool, mobile: bool): (r: Navigation)
    ensures item.protected && user.None? ==> r.effect == SignIn && (r.menuOpen <==> menuOpen && !mobile)
    ensures !(item.protected && user.None?) ==> r == Navigate(user, item.path, menuOpen)
  {
    if item.protected && user.None? then Navigation(SignIn, menuOpen && !mobile)
    else Navigate(user, item.path, menuOpen)
  }

  /**
    No drawn entry ever asks to sign in: a visitor is only offered Home, and a
    signed-in user passes every gate. Clicking an entry therefore always
    navigates to its path and closes the mobile menu.
   */
  lemma DrawnItemsNavigate(user: Option<User>, i: nat, menuOpen: bool, mobile: bool)
    requires i < |NavItems(user)|
    ensures var item := NavItems(user)[i];
      ItemClick(user, item, menuOpen, mobile) == Navigation(NavigateTo(item.path), false)
  {
  }

  /** The library section is marked protected but its path passes the gate even for a visitor. */
  lemma LibraryPathUngated(menuOpen: bool)
    ensures LibraryItem.protected
    ensures Navigate(None, LibraryItem.path, menuOpen) == Navigation(NavigateTo("library"), false)
  {
  }

  /** Entries have distinct paths, so at most one entry is the active one. */
  lemma ActiveEntryUnique(user: Option<User>, page: string, i: nat, j: nat)
    requires i < |NavItems(user)| && j < |NavItems(user)|
    requires NavItems(user)[i].path == page && NavItems(user)[j].path == page
    ensures i == j
  {
  }

  // ---------------------------------------------------------------------------
  // Display name
  // ---------------------------------------------------------------------------

  const DefaultName: string := "User"

  /** `user_metadata.name || email.split('@')[0] || 'User'`. */
  function DisplayName(u: User): (r: string)
    ensures r != ""
    ensures u.name != "" ==> r == u.name
  {
    if u.name != "" then u.name
    else if Split(u.email, '@')[0] != "" then Split(u.email, '@')[0]
    else DefaultName
  }

  /** `s.split(c)[0]` is the text before the first c. */
  lemma SplitHead(s: string, c: char)
    ensures var h := Split(s, c)[0];
      && h == s[..|h|] && c !in h
      && (|h| == |s| || s[|h|] == c)
  {
  }

  /**
    Without a metadata name, the shown name is the e-mail address up to its
    first `@` when that part is non-empty, and the fallback otherwise.
   */
  lemma DisplayNameFromEmail(u: User)
    requires u.name == ""
    ensures var r := DisplayName(u);
      || (r == DefaultName && (u.email == "" || u.email[0] == '@'))
      || (0 < |r| <= |u.email| && r == u.email[..|r|] && '@' !in r && (|r| == |u.email| || u.email[|r|] == '@'))
    ensures '@' !in u.email && u.email != "" ==> DisplayName(u) == u.email
  {
    SplitHead(u.email, '@');
    var h := Split(u.email, '@')[0];
    if h == "" && u.email != "" {
      assert u.email[0] == '@';
    }
    if '@' !in u.email && u.email != "" {
      assert |h| == |u.email|;
    }
  }

  // ---------------------------------------------------------------------------
  // Admin entry
  // ---------------------------------------------------------------------------

  /** `isAdminUser` and `isAdminCheckLoading`. */
  datatype AdminFlags = AdminFlags(isAdmin: bool, checking: bool)

  /** What the admin lookup did: answered with a flag, or threw. */
  datatype Lookup = Answered(admin: bool) | Threw

  /** The lookup starts when the user changes: it runs only for a user with an e-mail address. */
  function CheckStarted(user: Option<User>, flags: AdminFlags): (r: AdminFlags)
    ensures (user.Some? && user.value.email != "") ==> r == flags.(checking := true)
    ensures !(user.Some? && user.value.email != "") ==> r == flags.(isAdmin := false)
  {
    if user.Some? && user.value.email != "" then flags.(checking := true)
    else flags.(isAdmin := false)
  }

  /** The lookup settles: the flag is the answer, false when it threw, and the check is over. */
  function CheckSettled(lookup: Lookup): (r: AdminFlags)
    ensures !r.checking
    ensures r.isAdmin <==> lookup == Answered(true)
  {
    match lookup
    case Answered(b) => AdminFlags(b, false)
    case Threw => AdminFlags(false, false)
  }

  /** The entry in both the desktop and the mobile menu. */
  predicate AdminEntry(user: Option<User>, flags: AdminFlags)
  {
    user.Some? && flags.isAdmin && !flags.checking
  }

  /** The flags once the check for a user has run to its end (the lookup is consulted only with an address). */
  function AdminCheck(user: Option<User>, flags: AdminFlags, lookup: Lookup): AdminFlags
  {
    var started := CheckStarted(user, flags);
    if user.Some? && user.value.email != "" then CheckSettled(lookup) else started
  }

  /**
    After the check, the admin entry shows exactly when there is a user with an
    address whose lookup answered true: no address, a thrown lookup or a
    negative answer all hide it.
   */
  lemma AdminEntryAfterCheck(user: Option<User>, flags: AdminFlags, lookup: Lookup)
    ensures AdminEntry(user, AdminCheck(user, flags, lookup))
        <==> user.Some? && user.value.email != "" && lookup == Answered(true)
  {
  }

  /** While a lookup is in flight the entry is hidden, whatever the previous answer was. */
  lemma AdminEntryHiddenWhileChecking(user: Option<User>, flags: AdminFlags)
    requires user.Some? && user.value.email != ""
    ensures !AdminEntry(user, CheckStarted(user, flags))
  {
  }

  // ---------------------------------------------------------------------------
  // What is drawn
  // ---------------------------------------------------------------------------

  /** The right-hand area: the user menu, a loading notice while auth resolves, or the login button. */
  datatype Account = UserMenu(name: string, adminEntry: bool) | LoadingNotice | LoginButton

  datatype Bar = Bar(items: seq<NavItem>, active: seq<bool>, account: Account)

  /** Hidden on the resources page and while the PDF viewer is open. */
  predicate HeaderHidden(page: string, viewerOpen: bool)
  {
    page == ResourcesPage || viewerOpen
  }

  function Render(page: string, viewerOpen: bool, user: Option<User>, authLoading: bool, flags: AdminFlags): (r: Option<Bar>)
    ensures r.None? <==> page == ResourcesPage || viewerOpen
    ensures r.Some? ==> r.value.items == NavItems(user) && |r.value.active| == |r.value.items|
    ensures r.Some? ==> forall i :: 0 <= i < |r.value.items| ==> (r.value.active[i] <==> r.value.items[i].path == page)
    ensures r.Some? ==> (r.value.account.UserMenu? <==> user.Some?)
    ensures r.Some? && user.None? ==> (r.value.account == LoadingNotice <==> authLoading)
    ensures r.Some? && user.Some? ==> r.value.account == UserMenu(DisplayName(user.value), AdminEntry(user, flags))
  {
    if HeaderHidden(page, viewerOpen) then None
    else
      var items := NavItems(user);
      var active := seq(|items|, i requires 0 <= i < |items| => items[i].path == page);
      var account :=
        if user.Some? then UserMenu(DisplayName(user.value), AdminEntry(user, flags))
        else if authLoading then LoadingNotice
        else LoginButton;
      Some(Bar(items, active, account))
  }

  /** A visitor never sees the admin entry, and on the resources page nothing at all is drawn. */
  lemma VisitorSeesNoAdmin(page: string, viewerOpen: bool, authLoading: bool, flags: AdminFlags)
    ensures var r := Render(page, viewerOpen, None, authLoading, flags);
      r.Some? ==> !r.value.account.UserMenu? && r.value.items == [Home]
    ensures Render(ResourcesPage, viewerOpen, None, authLoading, flags).None?
  {
  }
}
