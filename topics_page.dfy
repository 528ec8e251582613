/**
 * `TopicsPage`: the admin's topic list, filtered by title, with the number
 * of shown topics in the header.
 */
module TopicsPage {
  import opened Wrappers
  import opened Dtos
  import Text
  import Lists

  /** Where the page goes on load: home for anyone but an admin, otherwise it fetches. */
  datatype Gate = RedirectTo(path: string) | FetchTopics

  /** The load effect: no stored user, or a user whose type is not "admin", is sent home and nothing is fetched. */
  function OnLoad(stored: Stored): (g: Gate)
    ensures g == FetchTopics <==> stored.UserJson? && stored.user.userType == "admin"
    ensures g.RedirectTo? ==> g.path == "/"
  {
    match LoggedIn(stored)
    case None => RedirectTo("/")
    case Some(user) => if user.userType != "admin" then RedirectTo("/") else FetchTopics
  }

  /** `topic.title.toLowerCase().includes(searchQuery.toLowerCase())`. */
  function MatchesTitle(query: string): TopicView -> bool {
    (t: TopicView) => Text.Includes(Text.Lower(t.title), Text.Lower(query))
  }

  /** The search effect: an empty query shows every topic; otherwise those whose title contains it, ignoring case. */
  function SearchFilter(topics: seq<TopicView>, query: string): (shown: seq<TopicView>)
    ensures query == "" ==> shown == topics
    ensures query != "" ==> forall t :: t in shown <==> t in topics && MatchesTitle(query)(t)
  {
    if query == "" then topics else Lists.Filter(topics, MatchesTitle(query))
  }

  /** The shown topics keep their order. */
  lemma SearchKeepsOrder(topics: seq<TopicView>, query: string)
    ensures Lists.Subsequence(SearchFilter(topics, query), topics)
  {
    if query == "" {
      Lists.SubsequenceOfSelf(topics);
    } else {
      Lists.FilterIsSubsequence(topics, MatchesTitle(query));
    }
  }

  /** The header "All Topics (n)". */
  function Header(shown: seq<TopicView>): string {
    "All Topics (" + Text.DecimalString(|shown|) + ")"
  }

  /** The header counts the shown topics: never more than the loaded ones, and all of them with an empty query. */
  lemma HeaderCountsShown(topics: seq<TopicView>, query: string)
    ensures |SearchFilter(topics, query)| <= |topics|
    ensures query == "" ==> Header(SearchFilter(topics, query)) == "All Topics (" + Text.DecimalString(|topics|) + ")"
  {
  }
}
