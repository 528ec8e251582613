/**
 * `AppNavigationBar`: the links the top bar offers, which depend on the
 * logged-in user's type, and the login and logout actions that change the
 * user and the stored session.
 */
module AppNavigationBar {
  import opened Wrappers
  import opened Dtos

  /** A `[label, path]` pair of the bar. */
  datatype Link = Link(title: string, path: string)

  /** The links everyone gets. */
  const BasePages: seq<Link> := [Link("Problems", "/problems")]
  /** The links every user with a settings entry gets. */
  const CommonPages: seq<Link> := [Link("Classrooms", "/classrooms"), Link("Find Users", "/users")]
  const AddProblem := Link("Add new problem", "/add-problem")
  const ManageTopics := Link("Manage Topics", "/topics")

  /**
   * `userSettings[type]`: the entry for a type. The settings object also
   * has the key "common", so that word is a type with an entry too.
   */
  function RolePages(userType: string): (entry: Option<seq<Link>>)
    ensures entry.Some? <==> userType in {"common", "student", "teacher", "admin"}
  {
    if userType == "common" then Some(CommonPages)
    else if userType == "student" then Some([])
    else if userType == "teacher" then Some([AddProblem])
    else if userType == "admin" then Some([AddProblem, ManageTopics])
    else None
  }

  /**
   * The pages effect: the base links alone without a user or without a
   * settings entry for the type (an empty type included); otherwise the
   * base links, the common ones and the type's own, in that order.
   */
  function Pages(user: Option<UserView>): (pages: seq<Link>)
    ensures user.None? || RolePages(user.value.userType).None? ==> pages == BasePages
    ensures user.Some? && RolePages(user.value.userType).Some? ==>
      pages == BasePages + CommonPages + RolePages(user.value.userType).value
  {
    match user
    case None => BasePages
    case Some(u) =>
      match RolePages(u.userType)
      case None => BasePages
      case Some(own) => BasePages + CommonPages + own
  }

  /** The three real roles get exactly these links, without repeats. */
  lemma RoleLinks(user: UserView)
    ensures user.userType == "student" ==> Pages(Some(user)) == BasePages + CommonPages
    ensures user.userType == "teacher" ==> Pages(Some(user)) == BasePages + CommonPages + [AddProblem]
    ensures user.userType == "admin" ==> Pages(Some(user)) == BasePages + CommonPages + [AddProblem, ManageTopics]
    ensures user.userType in {"student", "teacher", "admin"} ==> NoRepeats(Pages(Some(user)))
  {
    var pages := Pages(Some(user));
    if user.userType in {"student", "teacher", "admin"} {
      forall i, j | 0 <= i < j < |pages|
        ensures pages[i] != pages[j]
      {
        assert pages[i].path != pages[j].path by {
          assert pages[0].path == "/problems" && pages[1].path == "/classrooms" && pages[2].path == "/users";
          if 3 < |pages| {
            assert pages[3].path == "/add-problem";
          }
          if 4 < |pages| {
            assert pages[4].path == "/topics";
          }
        }
      }
    }
  }

  predicate NoRepeats(links: seq<Link>) {
    forall i, j :: 0 <= i < j < |links| ==> links[i] != links[j]
  }

  /** Every user's bar starts with the base links; a user with more links has the common ones next. */
  lemma BaseLinksFirst(user: Option<UserView>)
    ensures Pages(user)[..1] == BasePages
    ensures |Pages(user)| > 1 ==> Pages(user)[1..3] == CommonPages
  {
    var pages := Pages(user);
    if |pages| > 1 {
      assert pages == BasePages + CommonPages + RolePages(user.value.userType).value;
      assert pages[1..3] == (BasePages + CommonPages)[1..3];
    }
  }

  /** The type named after the settings' own key gets the common links twice. */
  lemma CommonTypeRepeatsLinks(user: UserView)
    requires user.userType == "common"
    ensures Pages(Some(user)) == BasePages + CommonPages + CommonPages
    ensures !NoRepeats(Pages(Some(user)))
  {
    assert Pages(Some(user))[1] == Pages(Some(user))[3];
  }

  /** The bar's state: the user it shows, its links and the stored session. */
  class NavigationBar {
    var user: Option<UserView>
    var pages: seq<Link>
    var stored: Stored
    var loginOpen: bool
    var userMenuOpen: bool

    /** The links are those of the user shown, and the user shown is the stored one. */
    predicate Consistent()
      reads this
    {
      pages == Pages(user) && user == LoggedIn(stored)
    }

    /** The mounted bar: the stored user, if one is logged in, and their links. */
    constructor (stored: Stored)
      ensures this.stored == stored && user == LoggedIn(stored) && pages == Pages(user)
      ensures !loginOpen && !userMenuOpen
      ensures Consistent()
    {
      this.stored := stored;
      user := LoggedIn(stored);
      pages := Pages(LoggedIn(stored));
      loginOpen := false;
      userMenuOpen := false;
    }

    /** `handleLogin`: the login dialog opens. */
    method HandleLogin()
      modifies this`loginOpen
      ensures loginOpen && user == old(user) && pages == old(pages) && stored == old(stored)
    {
      loginOpen := true;
    }

    /** `handleLoginSuccess`: the user is shown and stored, their links appear and the dialog closes. */
    method HandleLoginSuccess(loggedIn: UserView)
      modifies this`user, this`stored, this`pages, this`loginOpen
      ensures user == Some(loggedIn) && stored == UserJson(loggedIn) && pages == Pages(Some(loggedIn))
      ensures !loginOpen && userMenuOpen == old(userMenuOpen)
      ensures Consistent()
    {
      user := Some(loggedIn);
      stored := UserJson(loggedIn);
      pages := Pages(user);
      loginOpen := false;
    }

    /**
     * `handleLogout`: no user, the text "null" stored, the user menu closed,
     * and a move to the home page; only the base links remain.
     */
    method HandleLogout() returns (navigateTo: string)
      modifies this`user, this`stored, this`pages, this`userMenuOpen
      ensures user == None && stored == NullText && !userMenuOpen && navigateTo == "/"
      ensures pages == BasePages && loginOpen == old(loginOpen)
      ensures Consistent()
    {
      user := None;
      stored := NullText;
      pages := Pages(None);
      userMenuOpen := false;
      navigateTo := "/";
    }
  }
}
