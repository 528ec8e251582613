/**
 * The JSON shapes the pages receive from the backend, and the logged-in user
 * as the pages read it back from the browser's storage. Ids are `number |
 * null`; a field the pages read with `?.` is an `Option`.
 */
module Dtos {
  import opened Wrappers

  /** `UserDTO`. */
  datatype UserView = UserView(
    id: Option<int>,
    username: string,
    password: Option<string>,
    firstName: string,
    lastName: string,
    email: string,
    profilePicture: string,
    userType: string)

  /** `TopicDTO`: a topic is read only for its id and title. */
  datatype TopicView = TopicView(id: Option<int>, title: string)

  /** `TestCaseDTO`. */
  datatype TestCaseView = TestCaseView(id: Option<int>, input: string, output: string, example: bool)

  /** `ProblemDTO`. */
  datatype ProblemView = ProblemView(
    id: Option<int>,
    title: string,
    description: string,
    difficulty: string,
    tests: seq<TestCaseView>,
    topics: seq<TopicView>)

  /** `SubmissionDTO`. */
  datatype SubmissionView = SubmissionView(
    code: string,
    language: string,
    report: string,
    score: int,
    user: UserView,
    problem: ProblemView)

  /** `HomeworkDTO`; an absent or empty deadline is None, a present one is milliseconds. */
  datatype HomeworkView = HomeworkView(
    id: Option<int>,
    title: string,
    description: string,
    deadline: Option<int>,
    problems: seq<ProblemView>)

  /** `ClassroomDTO`; the search reads `name` and `description` with `?.`. */
  datatype ClassroomView = ClassroomView(
    id: Option<int>,
    name: Option<string>,
    description: Option<string>,
    enrollmentKey: string,
    students: seq<UserView>)

  /** `HomeworkStatusDTO`. */
  datatype HomeworkStatusView = HomeworkStatusView(user: UserView, submissions: seq<SubmissionView>, totalScore: int)

  /**
   * What `localStorage.getItem("user")` gives: nothing, the text "null" that
   * logout writes, or a stored user's JSON.
   */
  datatype Stored = Absent | NullText | UserJson(user: UserView)

  /** `storedUser && storedUser !== "null"`: the stored user, if one is logged in. */
  function LoggedIn(stored: Stored): (u: Option<UserView>)
    ensures u.Some? <==> stored.UserJson?
    ensures u.Some? ==> u.value == stored.user
  {
    if stored.UserJson? then Some(stored.user) else None
  }

  /** JavaScript truthiness of a `number | null` id: null and 0 are falsy. */
  predicate Truthy(id: Option<int>) {
    id.Some? && id.value != 0
  }
}
