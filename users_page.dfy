/**
 * `UsersPage`: every user, filtered by username, with per-type counts of
 * the shown users, a capitalised type label and a "(You)" marker on the
 * current user's row.
 */
module UsersPage {
  import opened Wrappers
  import opened Dtos
  import Text
  import Lists

  /** Where the page goes on load: to the login page without a stored user, otherwise it fetches. */
  datatype Gate = RedirectTo(path: string) | FetchUsers

  function OnLoad(stored: Stored): (g: Gate)
    ensures g == FetchUsers <==> stored.UserJson?
    ensures g.RedirectTo? ==> g.path == "/login"
  {
    if LoggedIn(stored).None? then RedirectTo("/login") else FetchUsers
  }

  /** `user.username.toLowerCase().includes(searchQuery.toLowerCase())`. */
  function MatchesUsername(query: string): UserView -> bool {
    (u: UserView) => Text.Includes(Text.Lower(u.username), Text.Lower(query))
  }

  /** The search effect: an empty query shows everyone; otherwise the users whose username contains it, ignoring case. */
  function SearchFilter(users: seq<UserView>, query: string): (shown: seq<UserView>)
    ensures query == "" ==> shown == users
    ensures query != "" ==> forall u :: u in shown <==> u in users && MatchesUsername(query)(u)
  {
    if query == "" then users else Lists.Filter(users, MatchesUsername(query))
  }

  /** The shown users keep their order. */
  lemma SearchKeepsOrder(users: seq<UserView>, query: string)
    ensures Lists.Subsequence(SearchFilter(users, query), users)
  {
    if query == "" {
      Lists.SubsequenceOfSelf(users);
    } else {
      Lists.FilterIsSubsequence(users, MatchesUsername(query));
    }
  }

  function OfType(t: string): UserView -> bool {
    (u: UserView) => u.userType == t
  }

  /** The "Admins", "Teachers" and "Students" chips: counts over the shown users. */
  function TypeCounts(shown: seq<UserView>): (counts: (nat, nat, nat))
    ensures counts.0 == |Lists.Positions(shown, OfType("admin"))|
    ensures counts.1 == |Lists.Positions(shown, OfType("teacher"))|
    ensures counts.2 == |Lists.Positions(shown, OfType("student"))|
    ensures counts.0 + counts.1 + counts.2 <= |shown|
    ensures forall u :: u in shown && u.userType == "admin" ==> counts.0 > 0
  {
    Lists.ExclusiveCounts3(shown, OfType("admin"), OfType("teacher"), OfType("student"));
    Lists.FilterCountsPositions(shown, OfType("admin"));
    Lists.FilterCountsPositions(shown, OfType("teacher"));
    Lists.FilterCountsPositions(shown, OfType("student"));
    (|Lists.Filter(shown, OfType("admin"))|, |Lists.Filter(shown, OfType("teacher"))|, |Lists.Filter(shown, OfType("student"))|)
  }

  /** With only these three types present the chips add up to the header's count. */
  lemma {:induction false} TypeCountsFillHeader(shown: seq<UserView>)
    requires forall i :: 0 <= i < |shown| ==> shown[i].userType in {"admin", "teacher", "student"}
    ensures TypeCounts(shown).0 + TypeCounts(shown).1 + TypeCounts(shown).2 == |shown|
    decreases |shown|
  {
    if shown != [] {
      TypeCountsFillHeader(shown[1..]);
    }
  }

  /** `type.charAt(0).toUpperCase() + type.slice(1)`. */
  function TypeLabel(t: string): (text: string)
    ensures |text| == |t|
    ensures t != [] ==> text[0] == Text.UpperChar(t[0]) && text[1..] == t[1..]
  {
    if t == [] then [] else [Text.UpperChar(t[0])] + t[1..]
  }

  /** Capitalising twice is capitalising once, and the three types read as "Admin", "Teacher", "Student". */
  lemma TypeLabelIdempotent(t: string)
    ensures TypeLabel(TypeLabel(t)) == TypeLabel(t)
    ensures TypeLabel("admin") == "Admin" && TypeLabel("teacher") == "Teacher" && TypeLabel("student") == "Student"
  {
    if t != [] {
      var c := Text.UpperChar(t[0]);
      assert TypeLabel(TypeLabel(t)) == [Text.UpperChar(c)] + t[1..];
    }
    assert "admin"[1..] == "dmin" && "teacher"[1..] == "eacher" && "student"[1..] == "tudent";
  }

  /** `user.id === currentUser?.id ? "(You)" : ""`. */
  function YouMarker(row: UserView, current: Option<UserView>): (marker: string)
    ensures marker == "(You)" <==> current.Some? && row.id == current.value.id
    ensures marker == "" <==> !(current.Some? && row.id == current.value.id)
  {
    if current.Some? && row.id == current.value.id then "(You)" else ""
  }
}
